/** `useApi`: a fetch-once hook holding `data`, `loading`, `error` and a
    `hasFetched` flag. The HTTP exchange is an input value. */
module Api {
  import opened Common
  import Text

  datatype ApiState<D> = ApiState(data: Option<D>, loading: bool, error: Option<string>, hasFetched: bool)

  /** The hook's state before its first fetch. */
  function Initial<D>(): ApiState<D>
  {
    ApiState(None, true, None, false)
  }

  /** The parsed JSON body `{ success, data, message }`; an absent `data` or
      `message` property is `None`. */
  datatype Body<D> = Body(success: bool, data: Option<D>, message: Option<string>)

  /** What `fetch` and `response.json()` produced. `Rejected` is a thrown
      error (network failure) with its message; `Answered` is a response with
      its status line and either a parsed body or the message of the
      `SyntaxError` that parsing threw. */
  datatype Exchange<D> =
    | Rejected(message: string)
    | Answered(ok: bool, status: nat, statusText: string, body: Result<Body<D>>)

  /** The exchange ends in the `success` branch. */
  predicate Succeeded<D>(x: Exchange<D>)
  {
    x.Answered? && x.ok && x.body.Success? && x.body.value.success
  }

  /** The message `new Error(...)` carries for a non-ok response. */
  function HttpErrorMessage(status: nat, statusText: string): (m: string)
    ensures exists d :: |d| >= 1 && m == "HTTP " + d + ": " + statusText
                        && (forall i :: 0 <= i < |d| ==> Text.IsDigit(d[i])) && Text.DigitsValue(d) == status
                        && (d[0] == '0' ==> d == "0")
  {
    var d := Text.NatToString(status);
    "HTTP " + d + ": " + statusText
  }

  /** `result.message || 'Request failed'`: an absent or empty message is falsy. */
  function FailureMessage(message: Option<string>): (m: string)
    ensures m != ""
    ensures message.Some? && message.value != "" ==> m == message.value
    ensures message.None? || message.value == "" ==> m == "Request failed"
  {
    match message
    case Some(text) => if text != "" then text else "Request failed"
    case None => "Request failed"
  }

  /** The top of `fetchData` once the guard has let it through: loading on,
      error cleared, the fetch marked as done. */
  function Start<D>(s: ApiState<D>): (r: ApiState<D>)
    ensures r.loading && r.error.None? && r.hasFetched
    ensures r.data == s.data
  {
    ApiState(s.data, true, None, true)
  }

  /** The rest of `fetchData`: the success branch stores `result.data`; every
      throw ends in the catch block, which stores the message and nulls the
      data; the finally block turns loading off. */
  function Finish<D>(s: ApiState<D>, x: Exchange<D>): (r: ApiState<D>)
    requires s.error.None?
    ensures !r.loading && r.hasFetched == s.hasFetched
    ensures r.error.None? <==> Succeeded(x)
    ensures Succeeded(x) ==> r.data == x.body.value.data
    ensures !Succeeded(x) ==> r.data.None?
    ensures x.Rejected? ==> r.error == Some(x.message)
    ensures x.Answered? && !x.ok ==> r.error == Some(HttpErrorMessage(x.status, x.statusText))
    ensures x.Answered? && x.ok && x.body.Failure? ==> r.error == Some(x.body.error)
    ensures (x.Answered? && x.ok && x.body.Success? && !x.body.value.success)
      ==> r.error == Some(FailureMessage(x.body.value.message))
  {
    match x
    case Rejected(message) => ApiState(None, false, Some(message), s.hasFetched)
    case Answered(ok, status, statusText, body) =>
      if !ok then ApiState(None, false, Some(HttpErrorMessage(status, statusText)), s.hasFetched)
      else match body
        case Failure(message) => ApiState(None, false, Some(message), s.hasFetched)
        case Success(result) =>
          if result.success then ApiState(result.data, false, s.error, s.hasFetched)
          else ApiState(None, false, Some(FailureMessage(result.message)), s.hasFetched)
  }

  /** `fetchData` with the hook's `options.forceRefetch`: a repeated call is
      dropped unless forced. */
  function FetchData<D>(s: ApiState<D>, forceRefetch: bool, x: Exchange<D>): (r: ApiState<D>)
    ensures s.hasFetched && !forceRefetch ==> r == s
    ensures !s.hasFetched || forceRefetch ==> r == Finish(Start(s), x)
  {
    if s.hasFetched && !forceRefetch then s else Finish(Start(s), x)
  }

  /** `refetch`: clears the flag and fetches, so the guard never stops it and
      the outcome is a fresh attempt on the current data. */
  function Refetch<D>(s: ApiState<D>, forceRefetch: bool, x: Exchange<D>): (r: ApiState<D>)
    ensures r == Finish(Start(s), x)
  {
    FetchData(s.(hasFetched := false), forceRefetch, x)
  }

  /** The guard: once fetched, an unforced call changes nothing, whatever the
      network would have answered. */
  lemma FetchOnce<D>(s: ApiState<D>, x: Exchange<D>, y: Exchange<D>)
    requires s.hasFetched
    ensures FetchData(s, false, x) == s
    ensures FetchData(FetchData(Initial(), false, x), false, y) == FetchData(Initial(), false, x)
  {
  }

  /** `refetch` always runs: afterwards the state reflects exactly the new
      exchange, whatever the state and the options were. */
  lemma RefetchAlwaysRuns<D>(s: ApiState<D>, forceRefetch: bool, x: Exchange<D>)
    ensures var r := Refetch(s, forceRefetch, x);
            && r.hasFetched && !r.loading
            && (r.error.None? <==> Succeeded(x))
            && (Succeeded(x) ==> r.data == x.body.value.data)
            && (!Succeeded(x) ==> r.data.None?)
  {
  }
}
