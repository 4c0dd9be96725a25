/** The letters client of api.py: the status decision of `_make_request`, the
    response-to-letter mapping of `get_letters` and `test_connection`. The HTTP
    exchange itself is an input: what the transport delivered. */
module Api {
  import opened Wrappers
  import opened PyStr

  /** A decoded JSON value. Numbers are integers. */
  datatype Json =
    | Null
    | Bool(b: bool)
    | Num(n: int)
    | Str(s: string)
    | Arr(items: seq<Json>)
    | Obj(fields: map<string, Json>)

  /** Python truthiness of the decoded value. */
  predicate Truthy(v: Json) {
    match v
    case Null => false
    case Bool(b) => b
    case Num(n) => n != 0
    case Str(s) => s != []
    case Arr(items) => items != []
    case Obj(fields) => fields != map[]
  }

  /** The exceptions that are neither of the integration's own two. */
  datatype PyException = NameError | AttributeError | JsonDecodeError

  /** How a call ends when it does not return: `SchulmanagerOnlineAuthError`,
      `SchulmanagerOnlineAPIError` (not related to each other), or another
      exception that nothing in this module catches. */
  datatype PyError = AuthError | ApiError | Unhandled(exception: PyException)

  /** What `response.json()` makes of the body. A wrong content type raises
      aiohttp's `ContentTypeError`, a `ClientError`; undecodable text raises
      `JSONDecodeError`. */
  datatype Body = Decoded(json: Json) | WrongContentType | Undecodable

  /** What the POST delivered: a response, a `ClientError`, or the timeout. */
  datatype Transport = Response(status: int, body: Body) | ClientError | Timeout

  /** `_make_request` as intended: 401 is the auth error, any other status but 200
      the API error, 200 the decoded body; client errors and the timeout become
      the API error. */
  function MakeRequest(t: Transport): (r: Result<Json, PyError>)
    ensures t.Response? && t.status == 401 ==> r == Failure(AuthError)
    ensures t.Response? && t.status != 401 && t.status != 200 ==> r == Failure(ApiError)
    ensures t.Response? && t.status == 200 && t.body.Decoded? ==> r == Success(t.body.json)
    ensures t.ClientError? || t.Timeout? ==> r == Failure(ApiError)
    ensures r.Success? <==> t.Response? && t.status == 200 && t.body.Decoded?
  {
    match t
    case Response(status, body) =>
      if status == 401 then Failure(AuthError)
      else if status != 200 then Failure(ApiError)
      else (
        match body
        case Decoded(json) => Success(json)
        case WrongContentType => Failure(ApiError)
        case Undecodable => Failure(Unhandled(JsonDecodeError))
      )
    case ClientError => Failure(ApiError)
    case Timeout => Failure(ApiError)
  }

  /** `_make_request` as written: api.py never imports `asyncio`, so every exception
      that passes the `except aiohttp.ClientError` clause (the auth error, the API
      error, the timeout, a decoding error) meets the `except asyncio.TimeoutError`
      clause, whose evaluation raises NameError. */
  function MakeRequestAsWritten(t: Transport): (r: Result<Json, PyError>)
    ensures r.Success? <==> MakeRequest(t).Success?
    ensures r.Success? ==> r == MakeRequest(t)
    ensures r.Failure? ==> r.error == ApiError || r.error == Unhandled(NameError)
  {
    match t
    case Response(status, body) =>
      if status == 200 && body.Decoded? then Success(body.json)
      else if status == 200 && body.WrongContentType? then Failure(ApiError)
      else Failure(Unhandled(NameError))
    case ClientError => Failure(ApiError)
    case Timeout => Failure(Unhandled(NameError))
  }

  /** The two agree on success and on client errors; they part exactly where the
      intended outcome is the auth error, a non-200 API error, the timeout or a
      decoding error, which all surface as NameError. */
  lemma MakeRequestAsWrittenDiffers(t: Transport)
    ensures MakeRequestAsWritten(t) != MakeRequest(t) <==>
              || (t.Response? && t.status != 200)
              || t.Timeout?
              || (t.Response? && t.body.Undecodable?)
    ensures MakeRequestAsWritten(t) != MakeRequest(t) ==> MakeRequestAsWritten(t) == Failure(Unhandled(NameError))
  {
  }

  /** `key in v`: dictionary keys, list elements, or a substring; TypeError for a
      number, a boolean or None. */
  function HasKey(v: Json, key: string): (r: Result<bool, PyError>)
    ensures v.Obj? ==> r == Success(key in v.fields)
  {
    match v
    case Obj(fields) => Success(key in fields)
    case Arr(items) => Success(Str(key) in items)
    case Str(s) => Success(Contains(s, key))
    case _ => Failure(ApiError)
  }

  /** `v[key]` for a string key: KeyError when a dictionary lacks it, TypeError for
      every other kind of value. */
  function Subscript(v: Json, key: string): (r: Result<Json, PyError>)
    ensures r.Success? <==> v.Obj? && key in v.fields
  {
    match v
    case Obj(fields) => if key in fields then Success(fields[key]) else Failure(ApiError)
    case _ => Failure(ApiError)
  }

  /** `v[0]`: IndexError for an empty list or string, KeyError for a dictionary
      (its keys are strings), TypeError for the rest. */
  function First(v: Json): (r: Result<Json, PyError>)
    ensures r.Success? <==> (v.Arr? && v.items != []) || (v.Str? && v.s != [])
    ensures r.Failure? ==> r.error == ApiError
  {
    match v
    case Arr(items) => if items != [] then Success(items[0]) else Failure(ApiError)
    case Str(s) => if s != [] then Success(Str([s[0]])) else Failure(ApiError)
    case _ => Failure(ApiError)
  }

  /** `d.get(key, default)` on a dictionary. */
  function Lookup(fields: map<string, Json>, key: string, default: Json): Json {
    if key in fields then fields[key] else default
  }

  /** `v.get(key, default)`: AttributeError unless `v` is a dictionary. */
  function GetOr(v: Json, key: string, default: Json): (r: Result<Json, PyError>)
    ensures r.Success? <==> v.Obj?
    ensures r.Failure? ==> r.error == Unhandled(AttributeError)
  {
    match v
    case Obj(fields) => Success(Lookup(fields, key, default))
    case _ => Failure(Unhandled(AttributeError))
  }

  /** What `for letter in v` visits: the elements of a list, the one-character
      strings of a string, the keys of a dictionary (each a string, which the loop
      body cannot `.get` from: AttributeError unless there is none); TypeError for
      the rest. */
  function Entries(v: Json): (r: Result<seq<Json>, PyError>)
    ensures v.Arr? ==> r == Success(v.items)
  {
    match v
    case Arr(items) => Success(items)
    case Str(s) => Success(seq(|s|, i requires 0 <= i < |s| => Str([s[i]])))
    case Obj(fields) => if fields == map[] then Success([]) else Failure(Unhandled(AttributeError))
    case _ => Failure(ApiError)
  }

  /** The record built for one letter. */
  datatype Letter = Letter(id: Json, title: Json, createdAt: Json, read: bool)

  /** The default of `studentStatuses`: one empty status. */
  const DefaultStatuses: Json := Arr([Obj(map[])])

  /** The loop body of `get_letters` for one entry. */
  function LetterOf(entry: Json): (r: Result<Letter, PyError>)
    ensures r.Success? ==> entry.Obj?
    ensures r.Success? ==>
              var fields := entry.fields;
              && r.value.id == (if "id" in fields then fields["id"] else Null)
              && r.value.title == (if "title" in fields then fields["title"] else Null)
              && r.value.createdAt == (if "createdAt" in fields then fields["createdAt"] else Null)
    ensures !entry.Obj? ==> r == Failure(Unhandled(AttributeError))
    ensures r.Failure? ==> r.error != AuthError
  {
    match entry
    case Obj(fields) =>
      var status :- First(Lookup(fields, "studentStatuses", DefaultStatuses));
      var readTimestamp :- GetOr(status, "readTimestamp", Null);
      Success(Letter(Lookup(fields, "id", Null), Lookup(fields, "title", Null),
                     Lookup(fields, "createdAt", Null), Truthy(readTimestamp)))
    case _ => Failure(Unhandled(AttributeError))
  }

  /** A letter is read exactly when its first status holds a truthy
      `readTimestamp`; an entry without `studentStatuses` is unread, and an empty
      status list is the API error. */
  lemma LetterOfRead(entry: Json)
    requires entry.Obj?
    ensures "studentStatuses" !in entry.fields ==> LetterOf(entry).Success? && !LetterOf(entry).value.read
    ensures var fields := entry.fields;
            "studentStatuses" in fields && fields["studentStatuses"] == Arr([]) ==> LetterOf(entry) == Failure(ApiError)
    ensures var fields := entry.fields;
            && "studentStatuses" in fields
            && fields["studentStatuses"].Arr? && fields["studentStatuses"].items != []
            && fields["studentStatuses"].items[0].Obj?
            ==> var status := fields["studentStatuses"].items[0].fields;
                && LetterOf(entry).Success?
                && (LetterOf(entry).value.read <==> "readTimestamp" in status && Truthy(status["readTimestamp"]))
  {
  }

  /** The letters of `entries` in order; the first entry that raises decides the
      failure. */
  function LettersOfEntries(entries: seq<Json>): (r: Result<seq<Letter>, PyError>)
    ensures r.Success? ==> |r.value| == |entries|
    decreases |entries|
  {
    if entries == [] then Success([])
    else
      var init :- LettersOfEntries(entries[..|entries| - 1]);
      var last :- LetterOf(entries[|entries| - 1]);
      Success(init + [last])
  }

  /** The mapping keeps count and order: it succeeds exactly when every entry maps,
      letter i being the record of entry i, and it never yields the auth error. */
  lemma {:induction false} LettersOfEntriesSpec(entries: seq<Json>)
    ensures LettersOfEntries(entries).Success? <==> forall i :: 0 <= i < |entries| ==> LetterOf(entries[i]).Success?
    ensures LettersOfEntries(entries).Success? ==>
              && |LettersOfEntries(entries).value| == |entries|
              && forall i :: 0 <= i < |entries| ==> LettersOfEntries(entries).value[i] == LetterOf(entries[i]).value
    ensures LettersOfEntries(entries).Failure? ==> LettersOfEntries(entries).error != AuthError
    decreases |entries|
  {
    if entries != [] {
      var n := |entries|;
      var init := entries[..n - 1];
      LettersOfEntriesSpec(init);
      assert forall i :: 0 <= i < n - 1 ==> init[i] == entries[i];
    }
  }

  /** Once a prefix of the entries fails, the whole mapping fails the same way:
      the loop stops at the first entry that raises. */
  lemma {:induction false} LettersOfEntriesFailureSticks(entries: seq<Json>, k: nat)
    requires k <= |entries| && LettersOfEntries(entries[..k]).Failure?
    ensures LettersOfEntries(entries) == LettersOfEntries(entries[..k])
    decreases |entries| - k
  {
    if k < |entries| {
      var n := |entries|;
      assert entries[..n - 1][..k] == entries[..k];
      LettersOfEntriesFailureSticks(entries[..n - 1], k);
    } else {
      assert entries[..k] == entries;
    }
  }

  /** `get_letters` once the response is decoded. Nothing in the mapping raises the
      auth error. */
  function LettersOf(response: Json): (r: Result<seq<Letter>, PyError>)
    ensures response.Obj? && "results" !in response.fields ==> r == Success([])
    ensures response.Obj? && "results" in response.fields && !Truthy(response.fields["results"]) ==> r == Success([])
    ensures r.Failure? ==> r.error != AuthError
  {
    var hasResults :- HasKey(response, "results");
    if !hasResults then Success([])
    else
      var results :- Subscript(response, "results");
      if !Truthy(results) then Success([])
      else
        var first :- First(results);
        var data :- GetOr(first, "data", Arr([]));
        var entries :- Entries(data);
        LettersOfEntriesSpec(entries);
        LettersOfEntries(entries)
  }

  /** The well-formed response: a `results` list whose first element is a dictionary
      with a `data` list gives one letter per entry of that list, in order, when
      every entry maps; a first element without `data` gives none. */
  lemma LettersOfData(response: Json)
    requires response.Obj? && "results" in response.fields
    requires var results := response.fields["results"];
             results.Arr? && results.items != [] && results.items[0].Obj?
    ensures var first := response.fields["results"].items[0].fields;
            && ("data" !in first ==> LettersOf(response) == Success([]))
            && ("data" in first && first["data"].Arr? ==> LettersOf(response) == LettersOfEntries(first["data"].items))
  {
  }

  /** The loop of `get_letters` (api.py:80-88): one record appended per entry. */
  method MapLetters(entries: seq<Json>) returns (r: Result<seq<Letter>, PyError>)
    ensures r == LettersOfEntries(entries)
  {
    var letters: seq<Letter> := [];
    var i := 0;
    while i < |entries|
      invariant 0 <= i <= |entries|
      invariant LettersOfEntries(entries[..i]) == Success(letters)
    {
      assert entries[..i + 1][..i] == entries[..i];
      var letter := LetterOf(entries[i]);
      if letter.Failure? {
        LettersOfEntriesFailureSticks(entries, i + 1);
        return Failure(letter.error);
      }
      letters := letters + [letter.value];
      i := i + 1;
    }
    assert entries[..i] == entries;
    r := Success(letters);
  }

  /** `get_letters` on top of a request outcome. */
  function GetLettersFrom(request: Result<Json, PyError>): (r: Result<seq<Letter>, PyError>)
    ensures request.Failure? ==> r == Failure(request.error)
    ensures request.Success? ==> r == LettersOf(request.value)
  {
    var response :- request;
    LettersOf(response)
  }

  /** `get_letters` with the intended request: the auth error comes from a 401 and
      from nothing else; other statuses, client errors and the timeout give the
      API error; the letters come from a 200 response with a decoded body. */
  function GetLetters(t: Transport): (r: Result<seq<Letter>, PyError>)
    ensures r == Failure(AuthError) <==> t.Response? && t.status == 401
    ensures t.ClientError? || t.Timeout? || (t.Response? && t.status != 200 && t.status != 401) ==>
              r == Failure(ApiError)
    ensures r.Success? ==> t.Response? && t.status == 200 && t.body.Decoded? && r == LettersOf(t.body.json)
  {
    GetLettersFrom(MakeRequest(t))
  }

  /** `test_connection`: true when the letters arrive, false on the auth or the API
      error; any other exception propagates. */
  function TestConnectionFrom(letters: Result<seq<Letter>, PyError>): (r: Result<bool, PyError>)
    ensures r == Success(true) <==> letters.Success?
    ensures r == Success(false) <==> letters.Failure? && (letters.error == AuthError || letters.error == ApiError)
    ensures r.Failure? ==> r.error.Unhandled? && letters == Failure(r.error)
  {
    match letters
    case Success(_) => Success(true)
    case Failure(AuthError) => Success(false)
    case Failure(ApiError) => Success(false)
    case Failure(e) => Failure(e)
  }

  /** `test_connection` with the intended request: a rejected token reads false. */
  lemma TestConnectionRejectedToken(body: Body)
    ensures TestConnectionFrom(GetLetters(Response(401, body))) == Success(false)
  {
  }

  /** `test_connection` as written: a rejected token raises NameError instead of
      reading false. */
  lemma TestConnectionAsWrittenRejectedToken(body: Body)
    ensures TestConnectionFrom(GetLettersFrom(MakeRequestAsWritten(Response(401, body)))) == Failure(Unhandled(NameError))
  {
  }
}
