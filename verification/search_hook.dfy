/** `searchLeads` of the `useLeadSearch` hook (client/src/hooks/useLeadSearch.jsx):
    the three pieces of hook state, the request built from the filters, and
    the state the search settles in for each kind of response.

    `fetch` is a parameter: it maps the request to what the network gave back.
    A search is modelled as two transitions: `Begin`, taken before any
    response is seen, and `Settle`, taken once the response is in. */
module SearchHook {
  import opened Options
  import opened Strings
  import opened Decimal

  /** The hook's state: `leads`, `loading` and `error` (null is `None`). */
  datatype State<L> = State(leads: seq<L>, loading: bool, error: Option<string>)

  /** The filters `searchLeads` is called with. */
  datatype Filters = Filters(country: string, city: string, limit: int, keywords: seq<string>)

  /** The query parameters, in the order `URLSearchParams` lists them. */
  datatype Request = Request(country: string, city: string, limit: string, category: string)

  /** What `response.json()` gives: the records, or the error it throws. */
  datatype Body<L> = Parsed(leads: seq<L>) | Malformed(message: string)

  /** What `fetch` gives: a rejection with its error message, or a response. */
  datatype Response<L> = NetworkFailure(message: string) | HttpResponse(status: nat, body: Body<L>)

  /** The state the hook starts in. */
  function Initial<L>(): State<L> {
    State([], false, None)
  }

  /** `response.ok`: a status in the range 200–299. */
  predicate IsOk(status: nat) { 200 <= status <= 299 }

  /** The `category` parameter: the keywords joined by commas. */
  function Category(keywords: seq<string>): string {
    Join(keywords, ',')
  }

  function RequestOf(f: Filters): (r: Request)
    ensures r.country == f.country && r.city == f.city
    ensures r.category == Category(f.keywords)
    ensures 0 <= f.limit <= ExactBound ==> r.limit == NatToString(f.limit)
    ensures f.limit < 0 && -f.limit <= ExactBound ==> r.limit == ['-'] + NatToString(-f.limit)
  {
    Request(f.country, f.city, IntToString(f.limit), Category(f.keywords))
  }

  /** The message of the error thrown for a non-OK status: the fixed text
      for 422, which no other status gives, and otherwise the status's digits
      after `Errore Server: `, from which the status can be read back. */
  function ErrorMessage(status: nat): (m: string)
    ensures status == 422 <==> m == "Parametri non validi."
    ensures status != 422 ==> |m| > 15 && m[..15] == "Errore Server: "
                              && AllDigits(m[15..]) && ParseDigits(m[15..]) == status
  {
    ParseNatToString(status);
    if status == 422 then "Parametri non validi."
    else
      var m := "Errore Server: " + NatToString(status);
      assert m[0] == 'E' && m[15..] == NatToString(status);
      m
  }

  /** Lines 9–11: before any response is seen, loading is on and the error
      and the records are cleared, whatever the state was. */
  function Begin<L>(s: State<L>): (t: State<L>)
    ensures t.loading && t.error.None? && t.leads == []
  {
    s.(loading := true, error := None, leads := [])
  }

  /** Lines 28–38: the state once the response is in. Only an OK response
      whose body parses stores records, and it leaves the error as it was
      (cleared by `Begin`); every other outcome records the message of the
      error thrown and leaves the records as they were; `finally` turns
      loading off. */
  function Settle<L>(s: State<L>, response: Response<L>): (t: State<L>)
    ensures !t.loading
    ensures Succeeds(response) ==> t.error == s.error && t.leads == response.body.leads
    ensures !Succeeds(response) ==> t.error.Some? && t.leads == s.leads
    ensures response.NetworkFailure? ==> t.error == Some(response.message)
    ensures response.HttpResponse? && !IsOk(response.status) ==> t.error == Some(ErrorMessage(response.status))
    ensures response.HttpResponse? && IsOk(response.status) && response.body.Malformed?
            ==> t.error == Some(response.body.message)
  {
    var s' :=
      match response
      case NetworkFailure(message) => s.(error := Some(message))
      case HttpResponse(status, body) =>
        if !IsOk(status) then s.(error := Some(ErrorMessage(status)))
        else
          match body
          case Parsed(leads) => s.(leads := leads)
          case Malformed(message) => s.(error := Some(message));
    s'.(loading := false)
  }

  /** Whether the response gives records. */
  predicate Succeeds<L>(response: Response<L>) {
    response.HttpResponse? && IsOk(response.status) && response.body.Parsed?
  }

  /** `searchLeads(filters)`, one search at a time. */
  function SearchLeads<L>(s: State<L>, f: Filters, fetch: Request -> Response<L>): (t: State<L>)
    ensures !t.loading
    ensures t.error.None? <==> Succeeds(fetch(RequestOf(f)))
    ensures Succeeds(fetch(RequestOf(f))) ==> t.leads == fetch(RequestOf(f)).body.leads
    ensures t.error.Some? ==> t.leads == []
  {
    Settle(Begin(s), fetch(RequestOf(f)))
  }

  /** The hook starts with no records, no error, and nothing loading. */
  lemma InitialIdle<L>()
    ensures var s: State<L> := Initial(); s.leads == [] && !s.loading && s.error.None?
  {
  }

  /** A search overwrites all three pieces of state, so it ends in the same
      state as the same search started from the initial state. */
  lemma SearchForgetsPrior<L>(s: State<L>, f: Filters, fetch: Request -> Response<L>)
    ensures SearchLeads(s, f, fetch) == SearchLeads(Initial(), f, fetch)
  {
  }

  /** A settled search holds records or an error, never both, and is not
      loading, whatever the response. */
  lemma SettleOutcome<L>(s: State<L>, response: Response<L>)
    ensures var t := Settle(Begin(s), response);
            && !t.loading
            && (t.error.Some? ==> t.leads == [])
            && (Succeeds(response) <==> t.error.None?)
  {
  }

  /** An HTTP error status leaves the records empty and reports the message
      for that status. */
  lemma HttpErrorReported<L>(s: State<L>, status: nat, body: Body<L>)
    requires !IsOk(status)
    ensures Settle(Begin(s), HttpResponse(status, body)) == State([], false, Some(ErrorMessage(status)))
  {
  }

  /** Every other status reports itself after the `Errore Server: ` prefix,
      and that message is never the one for 422. */
  lemma ServerErrorMessage(status: nat)
    requires status != 422
    ensures |ErrorMessage(status)| > 15
    ensures ErrorMessage(status)[..15] == "Errore Server: "
    ensures ErrorMessage(status)[15..] == NatToString(status)
    ensures ErrorMessage(status) != ErrorMessage(422)
  {
    var m := ErrorMessage(status);
    assert m[0] == 'E';
  }

  /** Different statuses give different messages, so the message tells the
      status. */
  lemma ErrorMessageInjective(a: nat, b: nat)
    requires ErrorMessage(a) == ErrorMessage(b)
    ensures a == b
  {
    if a != 422 && b != 422 {
      ServerErrorMessage(a);
      ServerErrorMessage(b);
      NatToStringInjective(a, b);
    } else if a != 422 {
      ServerErrorMessage(a);
    } else if b != 422 {
      ServerErrorMessage(b);
    }
  }

  /** Splitting the `category` parameter on commas gives the keywords back
      when there is at least one and none contains a comma. */
  lemma CategoryRoundTrip(keywords: seq<string>)
    requires |keywords| >= 1
    requires forall i :: 0 <= i < |keywords| ==> ',' !in keywords[i]
    ensures SplitOn(Category(keywords), ',') == keywords
  {
    SplitJoin(keywords, ',');
  }

  /** Any parameter value is the join of its comma-separated pieces. */
  lemma CategoryOfPieces(category: string)
    ensures Category(SplitOn(category, ',')) == category
  {
    JoinSplit(category, ',');
  }

  /** With no keywords the parameter is empty, and splitting it gives one
      empty keyword rather than none. */
  lemma NoKeywordsCategory()
    ensures Category([]) == ""
    ensures SplitOn(Category([]), ',') == [""]
  {
    var r := SplitOn("", ',');
    assert |r| >= 1;
  }
}
