/**
 * AddServiceModal (frontend/src/App.jsx): the form that registers a new
 * service. Submitting checks the trimmed name and URL, then posts them;
 * the browser's URL parser is the parameter `parse`, which yields the
 * parsed URL's protocol or None when `new URL(s)` throws.
 */
module AddService {
  import opened Common
  import opened Text
  import opened Api

  const NAME_REQUIRED := "Name is required"
  const URL_INVALID := "Enter a valid URL starting with http:// or https://"

  /** The body of the POST /services request. */
  datatype NewService = NewService(name: string, url: string)

  /**
   * isHttp: the string parses as a URL whose protocol is http: or https:.
   * A string the URL constructor refuses is not http, and an accepted one
   * has exactly the protocol http: or https:.
   */
  predicate IsHttp(parse: string -> Option<string>, s: string)
    ensures parse(s).None? ==> !IsHttp(parse, s)
    ensures IsHttp(parse, s) ==> parse(s).Some? && (parse(s).value == "http:" || parse(s).value == "https:")
  {
    parse(s) == Some("http:") || parse(s) == Some("https:")
  }

  /** The checks submit makes, in order, and the request they lead to. */
  function Validate(name: string, url: string, parse: string -> Option<string>): (r: Result<NewService, string>)
    ensures r.Ok? <==> Trim(name) != "" && IsHttp(parse, Trim(url))
    ensures r.Ok? ==> r.value == NewService(Trim(name), Trim(url))
    ensures r.Err? ==> r.error == if Trim(name) == "" then NAME_REQUIRED else URL_INVALID
  {
    if Trim(name) == "" then Err(NAME_REQUIRED)
    else if !IsHttp(parse, Trim(url)) then Err(URL_INVALID)
    else Ok(NewService(Trim(name), Trim(url)))
  }

  /**
   * A request that passes validation carries a name with something other
   * than whitespace in it and no whitespace around it, and an http(s) URL
   * with none around it either.
   */
  lemma ValidatedRequestIsClean(name: string, url: string, parse: string -> Option<string>)
    requires Validate(name, url, parse).Ok?
    ensures var req := Validate(name, url, parse).value;
      |req.name| > 0 && !IsJsWhitespace(req.name[0]) && !IsJsWhitespace(req.name[|req.name| - 1])
      && Trim(req.name) == req.name && Trim(req.url) == req.url
      && IsHttp(parse, req.url)
  {
    TrimIdempotent(name);
    TrimIdempotent(url);
  }

  /** A name made only of whitespace is refused first, whatever the URL. */
  lemma BlankNameRefused(name: string, url: string, parse: string -> Option<string>)
    requires forall k :: 0 <= k < |name| ==> IsJsWhitespace(name[k])
    ensures Validate(name, url, parse) == Err(NAME_REQUIRED)
  {
    TrimBlankIffAllWhitespace(name);
  }

  class AddServiceModal {
    var name: string
    var url: string
    var loading: bool
    var error: string

    constructor Open()
      ensures name == "" && url == "" && !loading && error == ""
    {
      name, url, loading, error := "", "", false, "";
    }

    method EditName(v: string)
      modifies this
      ensures name == v && url == old(url) && loading == old(loading) && error == old(error)
    {
      name := v;
    }

    method EditUrl(v: string)
      modifies this
      ensures url == v && name == old(name) && loading == old(loading) && error == old(error)
    {
      url := v;
    }

    /**
     * submit, as the Enter key runs it (whether or not a request is already
     * in flight): a failed check shows its message; a passing one starts
     * loading, clears the message and yields the request to post.
     */
    method Submit(parse: string -> Option<string>) returns (request: Option<NewService>)
      modifies this
      ensures request.Some? <==> Validate(old(name), old(url), parse).Ok?
      ensures request.Some? ==> request.value == Validate(old(name), old(url), parse).value
                                && loading && error == ""
      ensures request.None? ==> error == Validate(old(name), old(url), parse).error
                                && loading == old(loading)
      ensures name == old(name) && url == old(url)
    {
      if Trim(name) == "" {
        error := NAME_REQUIRED;
        request := None;
      } else if !IsHttp(parse, Trim(url)) {
        error := URL_INVALID;
        request := None;
      } else {
        loading, error := true, "";
        request := Some(NewService(Trim(name), Trim(url)));
      }
    }

    /** The "Add Service" button: disabled while loading, otherwise submit. */
    method ClickAdd(parse: string -> Option<string>) returns (request: Option<NewService>)
      modifies this
      ensures old(loading) ==> request.None? && name == old(name) && url == old(url)
                               && loading == old(loading) && error == old(error)
      ensures !old(loading) ==> (request.Some? <==> Validate(old(name), old(url), parse).Ok?)
      ensures request.Some? ==> request.value == Validate(old(name), old(url), parse).value && loading && error == ""
      ensures !old(loading) && request.None? ==>
        error == Validate(old(name), old(url), parse).error && loading == old(loading)
      ensures name == old(name) && url == old(url)
    {
      if loading {
        request := None;
      } else {
        request := Submit(parse);
      }
    }

    /**
     * The POST settles: a created service goes to onAdd (and the modal is
     * closed by its owner); a failure shows the error's message and ends loading.
     */
    method SubmitSettled(outcome: Result<Service, ApiError>) returns (added: Option<Service>)
      modifies this
      ensures outcome.Ok? ==> added == Some(outcome.value) && loading == old(loading) && error == old(error)
      ensures outcome.Err? ==> added.None? && error == outcome.error.Message() && !loading
      ensures name == old(name) && url == old(url)
    {
      match outcome
      case Ok(svc) =>
        added := Some(svc);
      case Err(e) =>
        error, loading := e.Message(), false;
        added := None;
    }
  }
}
