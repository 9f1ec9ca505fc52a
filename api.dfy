/**
 * The dashboard's single HTTP helper, apiFetch (frontend/src/App.jsx):
 * what a call yields once the browser has answered. The transport itself
 * (headers, JSON decoding, the network) is the parameter `Transport`.
 */
module Api {
  import opened Common
  import opened Text

  /** A monitored service as the API returns it. */
  datatype Service = Service(id: int, name: string, url: string, createdAt: int)

  /** What the browser reports for one request: a response, or a failure to get one. */
  datatype Transport<T> =
    | Delivered(status: nat, statusText: string, body: T)
    | TransportFailed(message: string)

  /** The error apiFetch throws: a non-2xx response, or the network failure passed through. */
  datatype ApiError =
    | HttpError(status: nat, statusText: string)
    | NetworkError(message: string)
  {
    /** `e.message`: "<status> <statusText>" for a non-2xx response. */
    function Message(): (m: string)
      ensures HttpError? ==> |m| > |statusText| && m[|m| - |statusText|..] == statusText
      ensures NetworkError? ==> m == message
    {
      match this
      case HttpError(status, text) => NatToString(status) + " " + text
      case NetworkError(msg) => msg
    }
  }

  /** `res.ok`: a status in the range 200-299. */
  predicate IsOk(status: nat) { 200 <= status <= 299 }

  /**
   * apiFetch once the response is in: a non-2xx status throws
   * "<status> <statusText>", 204 resolves to null, anything else to the body.
   */
  function ApiFetch<T>(t: Transport<T>): (r: Result<Option<T>, ApiError>)
    ensures r.Err? <==> t.TransportFailed? || !IsOk(t.status)
    ensures r.Err? && t.Delivered? ==> r.error == HttpError(t.status, t.statusText)
    ensures t.TransportFailed? ==> r == Err(NetworkError(t.message))
    ensures r.Ok? ==> (r.value.None? <==> t.status == 204)
    ensures r.Ok? && r.value.Some? ==> r.value.value == t.body
  {
    match t
    case TransportFailed(msg) => Err(NetworkError(msg))
    case Delivered(status, text, body) =>
      if !IsOk(status) then Err(HttpError(status, text))
      else if status == 204 then Ok(None)
      else Ok(Some(body))
  }

  /** Reads the status back out of an error message: the digits before the first space. */
  function StatusOfMessage(m: string): Option<nat>
  {
    if exists k :: 0 <= k < |m| && m[k] == ' ' && AllDigits(m[..k]) then
      var k := FirstSpace(m);
      ParseNat(m[..k])
    else
      None
  }

  /** The index of the first space of a string that has one. */
  function FirstSpace(m: string): (k: nat)
    requires exists k :: 0 <= k < |m| && m[k] == ' '
    ensures k < |m| && m[k] == ' '
    ensures forall j :: 0 <= j < k ==> m[j] != ' '
  {
    if m[0] == ' ' then 0
    else
      assert exists k :: 0 <= k < |m[1..]| && m[1..][k] == ' ' by {
        var k :| 0 <= k < |m| && m[k] == ' ';
        assert m[1..][k - 1] == ' ';
      }
      1 + FirstSpace(m[1..])
  }

  /**
   * The message of an HTTP error carries its status: the status reads back
   * from the digits in front, and the status text follows the space.
   */
  lemma HttpErrorMessageRoundTrip(status: nat, statusText: string)
    ensures var m := HttpError(status, statusText).Message();
      StatusOfMessage(m) == Some(status)
      && m[|NatToString(status)| + 1..] == statusText
  {
    var d := NatToString(status);
    var m := HttpError(status, statusText).Message();
    assert m == d + [' '] + statusText;
    assert m[|d|] == ' ' && m[..|d|] == d;
    forall j | 0 <= j < |d| ensures m[j] != ' ' {
      assert m[j] == d[j] && IsDigit(d[j]);
    }
    assert FirstSpace(m) == |d|;
    NatToStringRoundTrip(status);
  }
}
