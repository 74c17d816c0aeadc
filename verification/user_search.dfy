/** The user search of the App component: a minimum-length gate on the search
    term, the query URL, and the reconciliation of one settled request into the
    `users` and `message` state cells. The network is replaced by an `Outcome`
    value handed to the transition. */
module UserSearch {

  import opened Wrappers

  /** One entry of the search result, as the page uses it. */
  datatype User = User(id: int, login: string)

  const DefaultMessage: string := "please enter a github username in the previous field"
  const RateLimitMessage: string := "you have reached the limit of 10 searches per minute"
  const ErrorMessage: string := "an error has occured, please try again. if problem persist, contact us"

  /** Terms shorter than this issue no request. */
  const MinTermLength: nat := 3

  const UrlPrefix: string := "https://api.github.com/search/users?q="
  const UrlSuffix: string := "&page=1&per_page=20"

  /** What `response.json()` yields: parsed JSON whose `items` field is an
      array of users or absent, or a body that does not parse. */
  datatype Body = Json(items: Option<seq<User>>) | Unparsable

  /** How the request settled: a response with its status and body, or a
      rejected fetch (network failure). */
  datatype Outcome = Response(status: int, body: Body) | Rejected

  /** `response.ok`: the status is in the 2xx range. */
  predicate IsOk(status: int)
  {
    200 <= status <= 299
  }

  /** The two search state cells, taken together as a value; `users == None`
      stands for both null and undefined. */
  datatype View = View(users: Option<seq<User>>, message: string)

  function InitialView(): View
  {
    View(None, DefaultMessage)
  }

  /** The query URL: the term is spliced in verbatim, with no encoding. */
  function QueryUrl(term: string): (url: string)
    ensures |url| == |UrlPrefix| + |term| + |UrlSuffix|
    ensures url[..|UrlPrefix|] == UrlPrefix
    ensures url[|UrlPrefix|..|url| - |UrlSuffix|] == term
    ensures url[|url| - |UrlSuffix|..] == UrlSuffix
  {
    UrlPrefix + term + UrlSuffix
  }

  /** The term a query URL carries, if the URL has the query's shape. */
  function UrlTerm(url: string): Option<string>
  {
    if |url| >= |UrlPrefix| + |UrlSuffix| && url[..|UrlPrefix|] == UrlPrefix
       && url[|url| - |UrlSuffix|..] == UrlSuffix
    then Some(url[|UrlPrefix|..|url| - |UrlSuffix|])
    else None
  }

  /** The URL string determines the term: distinct terms give distinct URL strings. */
  lemma QueryUrlRoundTrip(term: string)
    ensures UrlTerm(QueryUrl(term)) == Some(term)
  {
  }

  /** The request fetchUsers issues for `term`: none for an empty term or one
      shorter than three characters, else the query URL. */
  function Request(term: string): (r: Option<string>)
    ensures r.None? <==> |term| < MinTermLength
    ensures r.Some? ==> UrlTerm(r.value) == Some(term)
  {
    if term != [] && |term| >= MinTermLength then
      QueryUrlRoundTrip(term);
      Some(QueryUrl(term))
    else None
  }

  /** The state after the request settles with `outcome`. A 2xx response whose
      body fails to parse changes nothing, because that failure never reaches
      the catch handler; a non-2xx status other than 403 changes nothing. */
  function Settled(v: View, outcome: Outcome): View
  {
    match outcome
    case Rejected => View(None, ErrorMessage)
    case Response(status, body) =>
      if IsOk(status) then
        match body
        case Json(items) => View(items, DefaultMessage)
        case Unparsable => v
      else if status == 403 then View(None, RateLimitMessage)
      else v
  }

  /** fetchUsers(term) followed by the settlement of its request, if any. */
  function Fetch(v: View, term: string, outcome: Outcome): View
  {
    if Request(term).None? then v else Settled(v, outcome)
  }

  /** Each outcome's effect on the two state cells. */
  lemma SettledCases(v: View, outcome: Outcome)
    ensures outcome.Rejected? ==> Settled(v, outcome) == View(None, ErrorMessage)
    ensures outcome.Response? && outcome.status == 403 ==> Settled(v, outcome) == View(None, RateLimitMessage)
    ensures outcome.Response? && IsOk(outcome.status) && outcome.body.Json? ==>
              Settled(v, outcome) == View(outcome.body.items, DefaultMessage)
    ensures outcome.Response? && IsOk(outcome.status) && outcome.body.Unparsable? ==> Settled(v, outcome) == v
    ensures outcome.Response? && !IsOk(outcome.status) && outcome.status != 403 ==> Settled(v, outcome) == v
  {
  }

  /** What the result list shows: the message, or one entry per user. */
  datatype Display = MessageLine(text: string) | UserLinks(users: seq<User>)

  /** The list shows the message exactly when `users` is null or undefined. */
  function Shown(v: View): (d: Display)
    ensures d.MessageLine? <==> v.users.None?
    ensures d.MessageLine? ==> d.text == v.message
    ensures d.UserLinks? ==> v.users == Some(d.users)
  {
    match v.users
    case None => MessageLine(v.message)
    case Some(users) => UserLinks(users)
  }

  /** The messages the component ever holds. */
  predicate KnownMessage(m: string)
  {
    m == DefaultMessage || m == RateLimitMessage || m == ErrorMessage
  }

  /** The search state invariant: the message is one of the three, and while a
      user list is held the message is the default prompt. */
  predicate WellFormed(v: View)
  {
    KnownMessage(v.message) && (v.users.Some? ==> v.message == DefaultMessage)
  }

  /** Every settlement keeps the invariant. */
  lemma SettledKeepsWellFormed(v: View, outcome: Outcome)
    requires WellFormed(v)
    ensures WellFormed(Settled(v, outcome))
  {
  }

  /** Whatever happens after a failed or rate-limited request, the list shows
      the message that explains it. */
  lemma FailureShowsMessage(v: View, outcome: Outcome)
    requires outcome.Rejected? || (outcome.Response? && outcome.status == 403)
    ensures Shown(Settled(v, outcome)) ==
              MessageLine(if outcome.Rejected? then ErrorMessage else RateLimitMessage)
  {
  }

  /** One call of fetchUsers: a term and how its request settles. */
  datatype Call = Call(term: string, outcome: Outcome)

  function RunCalls(v: View, calls: seq<Call>): View
    decreases |calls|
  {
    if calls == [] then v else RunCalls(Fetch(v, calls[0].term, calls[0].outcome), calls[1..])
  }

  /** Calls whose terms are all too short leave the state as it was. */
  lemma {:induction false} ShortTermsChangeNothing(v: View, calls: seq<Call>)
    requires forall i :: 0 <= i < |calls| ==> |calls[i].term| < MinTermLength
    ensures RunCalls(v, calls) == v
    decreases |calls|
  {
    if calls != [] {
      ShortTermsChangeNothing(v, calls[1..]);
    }
  }

  /** Any sequence of calls keeps the invariant. */
  lemma {:induction false} RunCallsKeepsWellFormed(v: View, calls: seq<Call>)
    requires WellFormed(v)
    ensures WellFormed(RunCalls(v, calls))
    decreases |calls|
  {
    if calls != [] {
      var w := Fetch(v, calls[0].term, calls[0].outcome);
      if Request(calls[0].term).Some? {
        SettledKeepsWellFormed(v, calls[0].outcome);
      }
      RunCallsKeepsWellFormed(w, calls[1..]);
    }
  }

  /** Every state reached from the initial one satisfies the invariant. */
  lemma ReachableViewsWellFormed(calls: seq<Call>)
    ensures WellFormed(RunCalls(InitialView(), calls))
  {
    RunCallsKeepsWellFormed(InitialView(), calls);
  }

  /** The component's search state cells and fetchUsers. */
  class SearchComponent {
    var users: Option<seq<User>>
    var message: string

    function State(): View
      reads this
    {
      View(users, message)
    }

    constructor ()
      ensures State() == InitialView()
      ensures WellFormed(State())
    {
      users := None;
      message := DefaultMessage;
    }

    /** The promise handlers: map the settled request onto the state. */
    method HandleOutcome(outcome: Outcome)
      modifies this
      ensures State() == Settled(old(State()), outcome)
      ensures old(WellFormed(State())) ==> WellFormed(State())
    {
      match outcome {
        case Rejected =>
          users := None;
          message := ErrorMessage;
        case Response(status, body) =>
          if IsOk(status) {
            match body {
              case Json(items) =>
                users := items;
                message := DefaultMessage;
              case Unparsable =>
            }
          } else if status == 403 {
            users := None;
            message := RateLimitMessage;
          }
      }
    }

    /** fetchUsers: apply the length gate, issue the request and settle it.
        Returns the URL requested, if any. */
    method FetchUsers(term: string, outcome: Outcome) returns (url: Option<string>)
      modifies this
      ensures url.None? <==> |term| < MinTermLength
      ensures url.Some? ==> url.value == QueryUrl(term)
      ensures url.None? ==> users == old(users) && message == old(message)
      ensures State() == Fetch(old(State()), term, outcome)
    {
      if term != [] && |term| >= MinTermLength {
        url := Some(QueryUrl(term));
        HandleOutcome(outcome);
      } else {
        url := None;
      }
    }
  }
}
