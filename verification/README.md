# Leads without a website — a Dafny model

This project models the lead-search core of a small service. The service
finds local businesses that have no website of their own, and pairs each one
with a generated sales message.

- **Server** (`server/main.py`). The `/imprese-senza-sito` route:
  - parses a free-text keyword list;
  - walks the result pages of a Google Maps search for each keyword;
  - drops every business whose website is its own;
  - collects at most `target` records, each with a generated message.
  - Supporting functions: `extract_domain`, `normalize_text`,
    `is_official_website` and `parse_keywords`.
- **Client** (`client/src/hooks/useLeadSearch.jsx`). The `searchLeads`
  transition of the `useLeadSearch` hook:
  - the `leads`/`loading`/`error` state;
  - the query it builds, with the keywords comma-joined into `category`;
  - the state it settles in for each kind of response, with 422 reported
    differently from every other error status.

Modules:

| module | file | models |
|---|---|---|
| `Options` | `options.dfy` | Python's `None` and JavaScript's `null` |
| `Ascii` | `ascii.dfy` | `str.lower`, and the `\s` and `\w` classes of Python's `re`, on ASCII |
| `Strings` | `strings.dfy` | substring search, `str.split()` and `re.split` into tokens, JavaScript `join`/`split` |
| `Decimal` | `decimal.dfy` | how JavaScript renders an integral number of magnitude at most 2^53 |
| `Url` | `url.dfy` | `extract_domain` |
| `Official` | `official.dfy` | `normalize_text`, `is_official_website` |
| `Keywords` | `keywords.dfy` | `parse_keywords` |
| `Collect` | `collect.dfy` | the `imprese_senza_sito` loop |
| `SearchHook` | `search_hook.dfy` | `searchLeads` of `useLeadSearch` |

The remote services are parameters of the model (`Collect.Oracles`):
- the Google Maps search: one page of businesses and the next page token for
  a query, a location and a token;
- `check_website_presence`: a website or none, per business. The oracle
  sees the whole entry, including the website it lists (`Business.website`),
  which the function returns first when present;
- the message generator: a message per business name.

In the client, `fetch` is a parameter mapping the request to a response.

The members of `Collect` are stated for any website test `official`, a
function from a business name and a website to a boolean. The route,
`Collect.ImpreseSenzaSito`, instantiates it with
`Official.IsOfficialWebsite`, as `imprese_senza_sito` calls
`is_official_website`. "Its own website" in the rows below means a website
that this test accepts.

What the loop returns is specified against the page stream
`Collect.Fetched`. This is every business of every page the loop would fetch
if it never reached its target. The route returns
`Take(LeadsOf(o, Fetched(...)), target)`: the first `target` records those
businesses give, in fetch order.

## Model

| member | source | states |
|---|---|---|
| `Strings.Contains` | server/main.py:50-51 | Python's `w in d` on strings: true exactly when `w` occurs at some position of `d` |
| `Strings.Tokens` | server/main.py:142 | every token is non-empty and holds no separator (whitespace, or also commas) |
| `Strings.TokensOfInterleave` | server/main.py:142 | tokens joined by separator characters split back into exactly the non-empty tokens, in order |
| `Strings.SplitJoin` | client/src/hooks/useLeadSearch.jsx:15 | splitting a comma join of a non-empty list of comma-free items gives the list back |
| `Strings.JoinSplit` | client/src/hooks/useLeadSearch.jsx:15 | joining the pieces of a split gives the original string back |
| `Decimal.NatToString` | client/src/hooks/useLeadSearch.jsx:30 | a status renders as a non-empty string of digits with no leading zero |
| `Decimal.ParseNatToString` | client/src/hooks/useLeadSearch.jsx:30 | reading the rendered digits back gives the number |
| `Decimal.IntToString` | client/src/hooks/useLeadSearch.jsx:20 | `limit.toString()` of an integral limit of magnitude at most 2^53: the digits of a non-negative limit read back as the limit; a negative limit is a minus sign followed by digits that read back as its magnitude |
| `Url.Netloc` | server/main.py:37 | the network location never holds `/`, `?` or `#`, the characters that end it |
| `Url.ExtractDomain` | server/main.py:36-41 | the domain has no upper-case letter and no `/`, `?` or `#`; it is the lowered network location with its one leading `www.` removed when present, and unchanged otherwise |
| `Url.ExtractDomainOfUrl` | server/main.py:36-41 | for `scheme://host/path`, the domain is the lowered host minus one `www.`, whatever the path |
| `Url.StripsOneWww` | server/main.py:39-40 | a host `www.X` gives the lowered `X`, even when `X` starts with `www.` again |
| `Official.Normalize` | server/main.py:43-44 | only characters of `[a-z0-9]` remain; they are a subsequence of the lowered text; every such character of the lowered text is kept, as often as it occurs |
| `Official.NormalizeUnique` | server/main.py:43-44 | those three facts determine the result: any string meeting them equals `normalize_text` of the text |
| `Official.NormalizeIdempotent` | server/main.py:43-44 | normalising twice is normalising once |
| `Official.AnyWordOccurs` | server/main.py:50-53 | the loop answers true exactly when some word longer than 3 characters normalises to a substring of the domain |
| `Official.IsOfficialWebsite` | server/main.py:46-53 | true exactly when some whitespace-separated word of the name, longer than 3 characters, normalises to a substring of the normalised domain |
| `Official.ShortNamesNeverOfficial` | server/main.py:49 | a name with no word longer than 3 characters never claims a website |
| `Official.PunctuationWordAlwaysOfficial` | server/main.py:49-51 | a qualifying word with no letter or digit normalises to the empty string, so every website counts as the business's own |
| `Official.WordInDomainIsOfficial` | server/main.py:50-52 | one qualifying word found in the domain is enough |
| `Keywords.StopWordAt` | server/main.py:141 | the stop-word match is 0, 1 or 2 characters long: the `in italia` alternative never matches, because `in` is tried first |
| `Keywords.ParseKeywords` | server/main.py:140-142 | every keyword is non-empty and holds no comma or whitespace |
| `Keywords.RemoveStopWords` | server/main.py:141 | deleting stop words never makes the text longer |
| `Keywords.RemoveStopWordsDeletes` | server/main.py:141 | the substitution only deletes: the result is a subsequence of the text |
| `Keywords.RemoveStopWordsWord` | server/main.py:141 | a whole word is deleted when it is `in` or `a` in any case, and copied otherwise |
| `Keywords.ParseKeywordsOfWords` | server/main.py:140-142 | for any text of word characters, commas and whitespace (seen as words, possibly empty, glued by single separators, so runs and leading or trailing separators are covered), the result is the non-empty words minus the standalone `in`/`a` (any case), in order |
| `Keywords.InItaliaKeepsItalia` | server/main.py:141-142 | `ristoranti in italia` parses to `ristoranti`, `italia` |
| `Keywords.CommaSpaceKeywords` | server/main.py:142 | `pizzerie, ristoranti` parses to `pizzerie`, `ristoranti`: a comma and a space form one separator run |
| `Collect.ToLead` | server/main.py:206-221 | a record takes the business's name and the website found, and carries the message given to it |
| `Collect.CandidatesOf` | server/main.py:180-201 | at most one candidate per business; each candidate carries the website found for its business, and that website is missing, empty or not its own |
| `Collect.CandidatesOfMembers` | server/main.py:179-201 | a candidate is exactly a business of the page, with the website found for it, whose website is missing, empty or not its own |
| `Collect.LeadsOfCollectable` | server/main.py:184-221 | no record has a website that is the business's own, and each record's message is the one generated for its name |
| `Collect.CandidatesOfAppend` | server/main.py:180-201 | candidate selection over two runs of businesses is the selection over each, concatenated |
| `Collect.SelectCandidates` | server/main.py:179-201 | the candidate loop keeps exactly the businesses without their own website, in page order |
| `Collect.AppendLeads` | server/main.py:203-222 | records are appended in candidate order while fewer than `target` are in; `found` stays the record count and never passes `target` |
| `Collect.CollectPage` | server/main.py:179-222 | one page adds the first records it gives, up to `target` in all |
| `Collect.SearchStep` | server/main.py:163-227 | one search advances the page stream by exactly that page, and keeps the records equal to the first `target` that all fetched pages give |
| `Collect.SearchLoop` | server/main.py:151-227 | the records are the first `target` that the whole page stream gives |
| `Collect.ImpreseSenzaSito` | server/main.py:144-230 | nothing for `target <= 0`; at most `target` records; none with its own website; each with its message; the first `target` of the page stream |
| `SearchHook.RequestOf` | client/src/hooks/useLeadSearch.jsx:15-22 | country and city pass through; `category` is the comma join of the keywords; a limit of magnitude at most 2^53 is its decimal form, after a minus sign when negative |
| `SearchHook.InitialIdle` | client/src/hooks/useLeadSearch.jsx:4-6 | the hook starts with no records, no error and nothing loading |
| `SearchHook.ErrorMessage` | client/src/hooks/useLeadSearch.jsx:29-30 | 422 alone gives `Parametri non validi.`; any other status gives `Errore Server: ` followed by digits that read back as the status |
| `SearchHook.Begin` | client/src/hooks/useLeadSearch.jsx:9-11 | before any response, loading is on and the error and records are cleared |
| `SearchHook.Settle` | client/src/hooks/useLeadSearch.jsx:28-38 | loading ends off; a successful parse stores the body as the records and keeps the error; any other outcome sets an error and keeps the records; a network failure reports its own message, a non-OK status its status message, an unparsable body the parse error |
| `SearchHook.SearchLeads` | client/src/hooks/useLeadSearch.jsx:8-39 | loading ends off; no error exactly when the response is OK and parses; then the records are the parsed body; with an error the records are empty |
| `SearchHook.SearchForgetsPrior` | client/src/hooks/useLeadSearch.jsx:8-39 | a search ends in the same state whatever state it started from, since it overwrites all three pieces |
| `SearchHook.SettleOutcome` | client/src/hooks/useLeadSearch.jsx:28-38 | every outcome, including network failure, ends with loading off, and records and error never coexist |
| `SearchHook.HttpErrorReported` | client/src/hooks/useLeadSearch.jsx:28-31 | a non-OK status leaves no records and reports that status's message |
| `SearchHook.ServerErrorMessage` | client/src/hooks/useLeadSearch.jsx:29-30 | a status other than 422 gives `Errore Server: ` then the status, which never equals the 422 message |
| `SearchHook.ErrorMessageInjective` | client/src/hooks/useLeadSearch.jsx:29-30 | different statuses give different messages |
| `SearchHook.CategoryRoundTrip` | client/src/hooks/useLeadSearch.jsx:15 | splitting `category` on commas recovers the keywords when there is at least one and none holds a comma |
| `SearchHook.CategoryOfPieces` | client/src/hooks/useLeadSearch.jsx:15 | every `category` value is the comma join of its pieces |
| `SearchHook.NoKeywordsCategory` | client/src/hooks/useLeadSearch.jsx:15 | no keywords give an empty `category`, which splits into one empty keyword rather than none |

## Left out

- The external services are parameters, not code:
  - the Google Maps and Google searches (`search_business_on_google_maps`,
    and the fallback search in `check_website_presence`);
  - the message generator (`generate_message_sync`, including its fallback
    to an error text);
  - `fetch` in the client.
- `asyncio.gather` is modelled as an ordered map over the candidates.
  Concurrency is not modelled.
- FastAPI routing, CORS, `dotenv`, the `rich` debug log and the JSON
  response wrapping are left out. They compute nothing the records depend on.
- Characters are treated as ASCII. Python's `str.lower`, `\s` and `\w`
  also act on non-ASCII characters. Here those characters are never lowered,
  never whitespace and never word characters.
- The network-location parse is simplified. Python's `urlsplit` also strips
  leading C0 control characters and spaces, deletes tabs and newlines, and
  raises `ValueError` on a malformed IPv6 host. None of these is modelled.
- Collect.SearchLoop: the loop also stops once `fuel` searches are done.
  The route's loop has no such bound and runs for as long as the search
  keeps returning a next-page token.
- Collect.ImpreseSenzaSito: takes the same `fuel` bound and passes it to the
  loop, so its result is stated over the first `fuel` searches only.
- A business without a `title` is not modelled. It makes the route raise.
  `Business.title` is a string.
- The constant `found >= target` exit of the candidate loop (main.py:181)
  is kept in the code of `Collect.SelectCandidates`. It never fires, since
  `found` does not change in that loop.
- Percent-encoding of the query by `URLSearchParams`, and the request URL,
  are not modelled. `SearchHook.Request` holds the raw parameter values.
- SearchHook.RequestOf: the limit is stated only for magnitudes up to 2^53.
  Above that JavaScript prints the shortest digits that read back to the same
  double, padded with zeros (`2**60` gives `1152921504606847000`), and from
  10^21 on it uses exponent form (`1e+21`).
- Decimal.IntToString: gives the exact digits at every magnitude, so it agrees
  with JavaScript's `toString()` only up to 2^53. The shortest round-trip
  digits above 2^53 and the exponent form from 10^21 are not modelled,
  because they need the double-precision format.
- SearchHook.RequestOf: `Filters.limit` is an integer, so non-integral limits
  and string limits are not modelled. The search form stores the raw input
  text as the limit after any edit (client/src/components/SearchForm.jsx:133-134),
  and `toString()` passes such a string through unchanged (`""`, `"007"`).
- A JSON body that parses but is not an array is not modelled. Any parsed
  body is stored as the records.
- Overlapping searches are not modelled; one search runs at a time.
- The client and the server disagree on the path (`/api/v1/leads` and
  `/imprese-senza-sito`) and on parameter names (`country/city/limit/category`
  and `paese/città/target/keywords`). Neither side is linked to the other.
- The search form submits `category` as a single string, but the hook
  joins `filters.keywords` as a list. The hook is modelled with a keyword list.
- The presentational React components are not modelled.
