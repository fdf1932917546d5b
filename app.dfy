/** The request-dispatch rules of the web back end: how `/ask` and `/chat`
    pick an approach for `(index_name, approach)` and which status they
    answer with, the index check of `/content`, the approach tables built at
    start-up, and the refresh of the OpenAI token before each request. The
    approaches themselves are an opaque `run` function. */
module App {
  import opened Wrappers

  // ---------------------------------------------------------------------------
  // JSON values and Python's view of them

  datatype Json =
    | JNull
    | JBool(b: bool)
    | JNum(n: int)
    | JStr(s: string)
    | JArr(items: seq<Json>)
    | JObj(fields: map<string, Json>)

  /** Python truthiness of the decoded value (`x or default`, `if not x`). */
  predicate Truthy(j: Json) {
    match j
    case JNull => false
    case JBool(b) => b
    case JNum(n) => n != 0
    case JStr(s) => s != []
    case JArr(items) => items != []
    case JObj(fields) => fields != map[]
  }

  /** Lists and dicts cannot be dictionary keys. */
  predicate Hashable(j: Json) {
    !j.JArr? && !j.JObj?
  }

  function TypeName(j: Json): string {
    match j
    case JNull => "NoneType"
    case JBool(_) => "bool"
    case JNum(_) => "int"
    case JStr(_) => "str"
    case JArr(_) => "list"
    case JObj(_) => "dict"
  }

  datatype PyError =
    | KeyError(key: string)
    | TypeError(message: string)
    | AttributeError(message: string)

  /** `str(e)`. */
  function ErrorText(e: PyError): string {
    match e
    case KeyError(key) => "'" + key + "'"
    case TypeError(message) => message
    case AttributeError(message) => message
  }

  // ---------------------------------------------------------------------------
  // Approaches and the tables that hold them

  datatype ApproachKind =
    | RetrieveThenRead
    | ReadRetrieveRead
    | ReadDecomposeAsk
    | ChatReadRetrieveRead

  datatype SearchClient = SearchClient(indexName: string)

  datatype ContainerClient = ContainerClient(containerName: string)

  /** An approach object, bound to the search client of one index. */
  datatype Approach = Approach(kind: ApproachKind, search: SearchClient)

  /** `approach_table[index_name][approach]`. */
  type ApproachTable = map<string, map<string, Approach>>

  /** What `impl.run(...)` does: it returns a JSON-serialisable value or raises. */
  datatype RunResult = Returned(value: Json) | RunRaised(message: string)

  type Runner = (Approach, Json, Json) -> RunResult

  const StorageContainers: seq<string> :=
    ["natural-capital", "energy", "climate-financing", "green-minerals", "sust-agric", "adaptation", "infrastructure"]

  const SearchIndices: seq<string> :=
    ["natural-capital", "energy", "climate-financing", "green-minerals", "sust-agric", "adaptation", "infrastructure"]

  const DefaultIndex := "natural-capital"

  const AskApproachNames: set<string> := {"rtr", "rrr", "rda"}

  const ChatApproachNames: set<string> := {"rrr"}

  function AskRow(client: SearchClient): map<string, Approach> {
    map["rtr" := Approach(RetrieveThenRead, client),
        "rrr" := Approach(ReadRetrieveRead, client),
        "rda" := Approach(ReadDecomposeAsk, client)]
  }

  function ChatRow(client: SearchClient): map<string, Approach> {
    map["rrr" := Approach(ChatReadRetrieveRead, client)]
  }

  /** The `ask_approaches` comprehension: one row per search index. */
  function AskTable(searchClients: map<string, SearchClient>): ApproachTable
    requires forall i | i in SearchIndices :: i in searchClients
  {
    map i | i in SearchIndices :: AskRow(searchClients[i])
  }

  /** The `chat_approaches` comprehension. */
  function ChatTable(searchClients: map<string, SearchClient>): ApproachTable
    requires forall i | i in SearchIndices :: i in searchClients
  {
    map i | i in SearchIndices :: ChatRow(searchClients[i])
  }

  /** The search clients of `setup_clients`, one per index name. */
  function SearchClientsFor(names: seq<string>): (clients: map<string, SearchClient>)
    ensures forall i :: i in clients <==> i in names
    ensures forall i | i in clients :: clients[i] == SearchClient(i)
  {
    map i | i in names :: SearchClient(i)
  }

  // ---------------------------------------------------------------------------
  // Dispatch of /ask and /chat

  datatype Request = Request(isJson: bool, body: Json)

  /** A response with its status, or an exception that escapes the handler
      (answered by the framework, not by the handler). `FetchBlob` is the
      point where `/content` goes on to read from storage. */
  datatype Outcome =
    | Response(status: int, body: Json)
    | Unhandled(error: PyError)
    | FetchBlob(client: ContainerClient, path: string)

  function ErrorBody(message: string): Json {
    JObj(map["error" := JStr(message)])
  }

  /** The values read from the request before the `try`. */
  datatype Parsed = Parsed(fields: map<string, Json>, approach: Json, overrides: Json, indexName: Json)

  datatype ParseResult = Ok(parsed: Parsed) | ParseFailed(error: PyError)

  function SubscriptError(j: Json): PyError {
    match j
    case JArr(_) => TypeError("list indices must be integers or slices, not str")
    case JStr(_) => TypeError("string indices must be integers")
    case _ => TypeError("'" + TypeName(j) + "' object is not subscriptable")
  }

  /** `d.get(key)` on a decoded object. */
  function Get(fields: map<string, Json>, key: string): Json {
    if key in fields then fields[key] else JNull
  }

  /** `request_json["approach"]`, `request_json.get("overrides") or {}` and
      `overrides.get("index_name") or 'natural-capital'`. Parsing fails exactly
      when the body is not an object, has no `approach`, or has truthy
      `overrides` that are not an object. The defaulted index name is never
      falsy, so the branches taken when `index_name` is falsy cannot run. */
  function ParseRequest(body: Json): (r: ParseResult)
    ensures r.Ok? <==> (body.JObj? && "approach" in body.fields &&
      (!Truthy(Get(body.fields, "overrides")) || Get(body.fields, "overrides").JObj?))
    ensures r.ParseFailed? && body.JObj? && "approach" !in body.fields ==> r.error == KeyError("approach")
    ensures r.Ok? ==> r.parsed.fields == body.fields && r.parsed.approach == body.fields["approach"]
    ensures r.Ok? ==> (r.parsed.overrides.JObj? &&
      r.parsed.overrides == (if Truthy(Get(body.fields, "overrides")) then Get(body.fields, "overrides") else JObj(map[])))
    ensures r.Ok? ==> (Truthy(r.parsed.indexName) &&
      (Truthy(Get(r.parsed.overrides.fields, "index_name")) ==> r.parsed.indexName == Get(r.parsed.overrides.fields, "index_name")) &&
      (!Truthy(Get(r.parsed.overrides.fields, "index_name")) ==> r.parsed.indexName == JStr(DefaultIndex)))
  {
    if !body.JObj? then ParseFailed(SubscriptError(body))
    else if "approach" !in body.fields then ParseFailed(KeyError("approach"))
    else
      var raw := Get(body.fields, "overrides");
      var overrides := if Truthy(raw) then raw else JObj(map[]);
      if !overrides.JObj? then
        ParseFailed(AttributeError("'" + TypeName(overrides) + "' object has no attribute 'get'"))
      else
        var rawIndex := Get(overrides.fields, "index_name");
        var indexName := if Truthy(rawIndex) then rawIndex else JStr(DefaultIndex);
        Ok(Parsed(body.fields, body.fields["approach"], overrides, indexName))
  }

  datatype Lookup = Found(impl: Approach) | NotFound | LookupFailed(error: PyError)

  function Unhashable(j: Json): PyError {
    TypeError("unhashable type: '" + TypeName(j) + "'")
  }

  /** `table.get(index_name, {}).get(approach)`. */
  function LookupApproach(table: ApproachTable, indexName: Json, approach: Json): (r: Lookup)
    ensures r.Found? <==> indexName.JStr? && indexName.s in table &&
                          approach.JStr? && approach.s in table[indexName.s]
    ensures r.Found? ==> r.impl == table[indexName.s][approach.s]
    ensures r.LookupFailed? <==> !Hashable(indexName) || !Hashable(approach)
  {
    if !Hashable(indexName) then LookupFailed(Unhashable(indexName))
    else
      var row := if indexName.JStr? && indexName.s in table then table[indexName.s] else map[];
      if !Hashable(approach) then LookupFailed(Unhashable(approach))
      else if approach.JStr? && approach.s in row then Found(row[approach.s])
      else NotFound
  }

  /** The body of `ask` (`inputKey` = "question") or `chat` (`inputKey` =
      "history") over its approach table. */
  function Dispatch(table: ApproachTable, req: Request, run: Runner, inputKey: string): (r: Outcome)
    ensures !req.isJson ==> r == Response(415, ErrorBody("request must be json"))
    ensures r.Unhandled? <==> req.isJson && ParseRequest(req.body).ParseFailed?
    ensures r.Response? ==> r.status in {200, 400, 415, 500}
    ensures !r.FetchBlob?
    ensures req.isJson && ParseRequest(req.body).Ok? ==>
      var p := ParseRequest(req.body).parsed;
      var found := LookupApproach(table, p.indexName, p.approach);
      r.Response? &&
      (r == Response(400, ErrorBody("unknown approach or index_name")) <==> found.NotFound?) &&
      (r.status == 500 <==> (found.LookupFailed? ||
        (found.Found? && (inputKey !in p.fields || run(found.impl, p.fields[inputKey], p.overrides).RunRaised?)))) &&
      (found.LookupFailed? ==> r == Response(500, ErrorBody(ErrorText(found.error)))) &&
      (found.Found? && inputKey !in p.fields ==> r == Response(500, ErrorBody(ErrorText(KeyError(inputKey))))) &&
      (found.Found? && inputKey in p.fields && run(found.impl, p.fields[inputKey], p.overrides).RunRaised? ==>
        r == Response(500, ErrorBody(run(found.impl, p.fields[inputKey], p.overrides).message))) &&
      (found.Found? && inputKey in p.fields && run(found.impl, p.fields[inputKey], p.overrides).Returned? ==>
        r == Response(200, run(found.impl, p.fields[inputKey], p.overrides).value))
  {
    if !req.isJson then Response(415, ErrorBody("request must be json"))
    else match ParseRequest(req.body)
      case ParseFailed(e) => Unhandled(e)
      case Ok(p) =>
        match LookupApproach(table, p.indexName, p.approach)
        case LookupFailed(e) => Response(500, ErrorBody(ErrorText(e)))
        case NotFound => Response(400, ErrorBody("unknown approach or index_name"))
        case Found(impl) =>
          if inputKey !in p.fields then Response(500, ErrorBody(ErrorText(KeyError(inputKey))))
          else match run(impl, p.fields[inputKey], p.overrides)
            case RunRaised(message) => Response(500, ErrorBody(message))
            case Returned(value) => Response(200, value)
  }

  /** `POST /ask`. */
  function Ask(askApproaches: ApproachTable, req: Request, run: Runner): Outcome {
    Dispatch(askApproaches, req, run, "question")
  }

  /** `POST /chat`. */
  function Chat(chatApproaches: ApproachTable, req: Request, run: Runner): Outcome {
    Dispatch(chatApproaches, req, run, "history")
  }

  /** A successful answer is exactly the value `run` returned for the approach
      found in the table, called with the request's input and overrides. */
  lemma DispatchSucceeds(table: ApproachTable, req: Request, run: Runner, inputKey: string)
    ensures (Dispatch(table, req, run, inputKey).Response? && Dispatch(table, req, run, inputKey).status == 200) <==>
      req.isJson && ParseRequest(req.body).Ok? &&
      var p := ParseRequest(req.body).parsed;
      LookupApproach(table, p.indexName, p.approach).Found? && inputKey in p.fields &&
      run(LookupApproach(table, p.indexName, p.approach).impl, p.fields[inputKey], p.overrides).Returned?
    ensures Dispatch(table, req, run, inputKey).Response? && Dispatch(table, req, run, inputKey).status == 200 ==>
      var p := ParseRequest(req.body).parsed;
      Dispatch(table, req, run, inputKey) ==
        Response(200, run(LookupApproach(table, p.indexName, p.approach).impl, p.fields[inputKey], p.overrides).value)
  {
  }

  /** With the tables of `setup_clients`, `ask` finds an approach for a string
      index name and approach exactly when the index is one of the seven and
      the approach is `rtr`, `rrr` or `rda`; `chat` only for `rrr`. */
  lemma SetupTablesResolve(indexName: string, approach: string)
    ensures var t := AskTable(SearchClientsFor(SearchIndices));
      LookupApproach(t, JStr(indexName), JStr(approach)).Found? <==>
        indexName in SearchIndices && approach in AskApproachNames
    ensures var t := ChatTable(SearchClientsFor(SearchIndices));
      LookupApproach(t, JStr(indexName), JStr(approach)).Found? <==>
        indexName in SearchIndices && approach in ChatApproachNames
  {
    var clients := SearchClientsFor(SearchIndices);
    if indexName in SearchIndices {
      assert AskTable(clients)[indexName] == AskRow(SearchClient(indexName));
      assert ChatTable(clients)[indexName] == ChatRow(SearchClient(indexName));
    }
  }

  /** The approach found is the one of the requested kind bound to the search
      client of the requested index. */
  lemma SetupTablesBindIndex(indexName: string, approach: string)
    requires indexName in SearchIndices
    ensures approach in AskApproachNames ==>
      LookupApproach(AskTable(SearchClientsFor(SearchIndices)), JStr(indexName), JStr(approach)) ==
        Found(Approach(if approach == "rtr" then RetrieveThenRead
                       else if approach == "rrr" then ReadRetrieveRead
                       else ReadDecomposeAsk, SearchClient(indexName)))
    ensures LookupApproach(ChatTable(SearchClientsFor(SearchIndices)), JStr(indexName), JStr("rrr")) ==
      Found(Approach(ChatReadRetrieveRead, SearchClient(indexName)))
  {
    var clients := SearchClientsFor(SearchIndices);
    assert AskTable(clients)[indexName] == AskRow(SearchClient(indexName));
    assert ChatTable(clients)[indexName] == ChatRow(SearchClient(indexName));
  }

  /** A request without overrides goes to the default index: `ask` then
      answers 400 exactly for an approach other than `rtr`, `rrr` and `rda`. */
  lemma AskWithoutOverrides(req: Request, run: Runner, approach: string)
    requires req.isJson && req.body.JObj?
    requires Get(req.body.fields, "approach") == JStr(approach) && "overrides" !in req.body.fields
    ensures var r := Ask(AskTable(SearchClientsFor(SearchIndices)), req, run);
      r.Response? && (r.status == 400 <==> approach !in AskApproachNames)
  {
    SetupTablesResolve(DefaultIndex, approach);
  }

  // ---------------------------------------------------------------------------
  // /content/<index_name>/<path>

  /** `content_file(index_name, path)` up to the blob download. */
  function ContentFile(blobContainerClients: map<string, ContainerClient>, indexName: string, path: string): (r: Outcome)
    ensures r.Response? <==> indexName !in blobContainerClients
    ensures r.Response? ==> r == Response(400, ErrorBody("unknown index_name for blob container"))
    ensures r.FetchBlob? ==> r.client == blobContainerClients[indexName] && r.path == path
  {
    if indexName !in blobContainerClients then
      Response(400, ErrorBody("unknown index_name for blob container"))
    else FetchBlob(blobContainerClients[indexName], path)
  }

  // ---------------------------------------------------------------------------
  // Application state: setup_clients and ensure_openai_token

  datatype AccessToken = AccessToken(token: string, expiresOn: int)

  const TokenRefreshMargin := 60

  /** `ensure_openai_token` on the stored token and `openai.api_key`, with the
      clock at `now` and `fetched` the token the credential hands out (`None`
      when `get_token` raises). The flag says whether the request goes on to
      its handler: an exception in `before_request` stops it, with nothing
      stored. */
  function EnsureTokenSpec(current: AccessToken, apiKey: string, now: int, fetched: Option<AccessToken>): (AccessToken, string, bool)
  {
    if current.expiresOn >= now + TokenRefreshMargin then (current, apiKey, true)
    else if fetched.None? then (current, apiKey, false)
    else (fetched.value, fetched.value.token, true)
  }

  /** After the check the stored token is valid for another minute whenever
      the fetched one is, and then a second check at the same instant keeps
      everything as it is. */
  lemma EnsureTokenSettles(current: AccessToken, apiKey: string, now: int, fetched: AccessToken, again: Option<AccessToken>)
    requires fetched.expiresOn >= now + TokenRefreshMargin
    ensures var (t, k, proceeds) := EnsureTokenSpec(current, apiKey, now, Some(fetched));
      proceeds && t.expiresOn >= now + TokenRefreshMargin && EnsureTokenSpec(t, k, now, again) == (t, k, true)
  {
  }

  /** The loop of `setup_clients` that fills `blob_container_clients`. */
  method ContainerClients(names: seq<string>) returns (clients: map<string, ContainerClient>)
    ensures forall c :: c in clients <==> c in names
    ensures forall c | c in clients :: clients[c] == ContainerClient(c)
  {
    clients := map[];
    for k := 0 to |names|
      invariant forall c :: c in clients <==> c in names[..k]
      invariant forall c | c in clients :: clients[c] == ContainerClient(c)
    {
      clients := clients[names[k] := ContainerClient(names[k])];
    }
    assert names[..|names|] == names;
  }

  /** The loop of `setup_clients` that fills `search_clients`. */
  method SearchClients(names: seq<string>) returns (clients: map<string, SearchClient>)
    ensures clients == SearchClientsFor(names)
  {
    clients := map[];
    for k := 0 to |names|
      invariant forall i :: i in clients <==> i in names[..k]
      invariant forall i | i in clients :: clients[i] == SearchClient(i)
    {
      clients := clients[names[k] := SearchClient(names[k])];
    }
    assert names[..|names|] == names;
  }

  /** `current_app.config` and `openai.api_key` after `setup_clients`. */
  class AppConfig {
    var openaiToken: AccessToken
    var apiKey: string
    var blobContainerClients: map<string, ContainerClient>
    var askApproaches: ApproachTable
    var chatApproaches: ApproachTable

    /** `setup_clients(token)`: a container client per storage container, a
        search client per index, and the two approach tables. */
    constructor SetupClients(token: AccessToken)
      ensures forall c :: c in blobContainerClients <==> c in StorageContainers
      ensures forall c | c in blobContainerClients :: blobContainerClients[c] == ContainerClient(c)
      ensures askApproaches == AskTable(SearchClientsFor(SearchIndices))
      ensures chatApproaches == ChatTable(SearchClientsFor(SearchIndices))
      ensures openaiToken == token && apiKey == token.token
    {
      var containers := ContainerClients(StorageContainers);
      var searchClients := SearchClients(SearchIndices);
      openaiToken := token;
      apiKey := token.token;
      blobContainerClients := containers;
      askApproaches := AskTable(searchClients);
      chatApproaches := ChatTable(searchClients);
    }

    /** `ensure_openai_token()`, run before every request. */
    method EnsureOpenAiToken(now: int, fetched: Option<AccessToken>) returns (proceeds: bool)
      modifies this
      ensures (openaiToken, apiKey, proceeds) == EnsureTokenSpec(old(openaiToken), old(apiKey), now, fetched)
      ensures !proceeds <==> old(openaiToken).expiresOn < now + TokenRefreshMargin && fetched.None?
      ensures !proceeds ==> openaiToken == old(openaiToken) && apiKey == old(apiKey)
      ensures blobContainerClients == old(blobContainerClients)
      ensures askApproaches == old(askApproaches) && chatApproaches == old(chatApproaches)
    {
      proceeds := true;
      if openaiToken.expiresOn < now + TokenRefreshMargin {
        if fetched.None? {
          proceeds := false;
        } else {
          openaiToken := fetched.value;
          apiKey := fetched.value.token;
        }
      }
    }
  }

  /** `/content` answers 400 exactly for an index without a storage container. */
  lemma ContentFileNeedsContainer(config: AppConfig, indexName: string, path: string)
    requires forall c :: c in config.blobContainerClients <==> c in StorageContainers
    requires forall c | c in config.blobContainerClients :: config.blobContainerClients[c] == ContainerClient(c)
    ensures var r := ContentFile(config.blobContainerClients, indexName, path);
      (r.Response? && r.status == 400) <==> indexName !in StorageContainers
    ensures var r := ContentFile(config.blobContainerClients, indexName, path);
      r.FetchBlob? ==> r.client == ContainerClient(indexName)
  {
  }
}
