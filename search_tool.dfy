/**
 * `LeanSearchTool._run`: a Loogle query turned into a normalised list of hits,
 * or an error envelope when fetching or reading the reply fails.
 */
module SearchTool {
  import opened Wrappers
  import opened PyJson
  import opened PyText

  /** What fetching and decoding the Loogle reply gave: the decoded payload, or the text of the exception raised. */
  datatype Fetched = Received(payload: Json) | FetchFailed(reason: string)

  /** One normalised hit; `declType` is the reply's `type` key. */
  datatype Hit = Hit(name: Json, declType: Json, doc: Json, source: Json)

  /** The reply object, before serialisation; `error` is present only in the error envelope. */
  datatype SearchReply = SearchReply(
    query: string,
    count: nat,
    results: seq<Hit>,
    source: string,
    error: Option<string>)

  const DefaultLimit := 5
  const MinLimit := 1
  const MaxLimit := 20

  const LoogleHost := "loogle.lean-lang.org"
  const LoogleBase := "https://" + LoogleHost + "/"
  const ErrorPrefix := "No se pudo consultar Loogle API: "

  /** The JSON endpoint queried, for the query already passed through `quote_plus`. */
  function ApiUrl(encoded: string): (url: string)
    ensures StartsWith(url, LoogleBase + "json?q=")
    ensures |url| - |encoded| == |LoogleBase| + 7 && url[|url| - |encoded|..] == encoded
  {
    LoogleBase + "json?q=" + encoded
  }

  /** The search page reported as the source. */
  function WebUrl(encoded: string): (url: string)
    ensures StartsWith(url, LoogleBase + "?q=")
    ensures |url| - |encoded| == |LoogleBase| + 3 && url[|url| - |encoded|..] == encoded
    ensures url != ApiUrl(encoded)
  {
    var url := LoogleBase + "?q=" + encoded;
    assert url[|LoogleBase|] == '?' != ApiUrl(encoded)[|LoogleBase|];
    url
  }

  // ----- Reading the payload -----

  /**
   * The hit list: for an object its first truthy `hits` or `results` entry
   * (else an empty list), for a list the list itself, for anything else an
   * empty list.
   */
  function SelectItems(payload: Json): (items: Json)
    ensures items.JArray? || Truthy(items)
    ensures payload.JArray? ==> items == payload
    ensures !payload.JObject? && !payload.JArray? ==> items == JArray([])
  {
    match payload
    case JObject(m) => Or(Get(m, "hits"), Or(Get(m, "results"), JArray([])))
    case JArray(_) => payload
    case _ => JArray([])
  }

  /** End index of `xs[:limit]` for a sequence of length `n`; a negative limit counts from the end. */
  function SliceEnd(n: nat, limit: int): (e: nat)
    ensures e <= n
    ensures 0 <= limit ==> e == if limit < n then limit else n
    ensures limit < 0 ==> e == if n + limit > 0 then n + limit else 0
  {
    if limit >= 0 then (if limit < n then limit else n)
    else (if n + limit > 0 then n + limit else 0)
  }

  /**
   * `items[:limit]` as the loop sees it: a prefix of a list, the characters of
   * a prefix of a string, or nothing when the value cannot be sliced.
   */
  function Window(items: Json, limit: int): (w: Option<seq<Json>>)
    ensures items.JArray? ==> w == Some(items.items[..SliceEnd(|items.items|, limit)])
    ensures items.JString? ==>
              && w.Some? && |w.value| == SliceEnd(|items.s|, limit)
              && forall i | 0 <= i < |w.value| :: w.value[i] == JString([items.s[i]])
    ensures w.Some? ==> items.JArray? || items.JString?
  {
    match items
    case JArray(xs) => Some(xs[..SliceEnd(|xs|, limit)])
    case JString(s) => Some(seq(SliceEnd(|s|, limit), i requires 0 <= i < SliceEnd(|s|, limit) => JString([s[i]])))
    case _ => None
  }

  /** Index of the first entry that is not an object, whose `.get` raises. */
  function FirstNonObject(window: seq<Json>): (k: Option<nat>)
    ensures k.Some? ==> k.value < |window| && !window[k.value].JObject?
    ensures k.Some? ==> forall i | 0 <= i < k.value :: window[i].JObject?
    ensures k.None? ==> forall i | 0 <= i < |window| :: window[i].JObject?
  {
    if window == [] then None
    else if !window[0].JObject? then Some(0)
    else match FirstNonObject(window[1..])
      case Some(k) => Some(k + 1)
      case None => None
  }

  // ----- Building the reply -----

  /** One hit: the first truthy of the alternative keys, the doc as given, and the search page as a fallback source. */
  function NormalizeItem(item: map<string, Json>, webUrl: string): (h: Hit)
    requires webUrl != []
    ensures Truthy(h.name) <==> Truthy(Get(item, "name")) || Truthy(Get(item, "declName")) || Truthy(Get(item, "title"))
    ensures Truthy(Get(item, "name")) ==> h.name == Get(item, "name")
    ensures !Truthy(Get(item, "name")) && Truthy(Get(item, "declName")) ==> h.name == Get(item, "declName")
    ensures !Truthy(Get(item, "name")) && !Truthy(Get(item, "declName")) ==> h.name == Get(item, "title")
    ensures Truthy(h.declType) <==> Truthy(Get(item, "type")) || Truthy(Get(item, "signature"))
    ensures Truthy(Get(item, "type")) ==> h.declType == Get(item, "type")
    ensures !Truthy(Get(item, "type")) ==> h.declType == Get(item, "signature")
    ensures h.doc == Get(item, "doc")
    ensures Truthy(h.source)
    ensures Truthy(Get(item, "source")) ==> h.source == Get(item, "source")
    ensures !Truthy(Get(item, "source")) ==> h.source == JString(webUrl)
  {
    OrTruthy(Get(item, "name"), Or(Get(item, "declName"), Get(item, "title")));
    OrTruthy(Get(item, "declName"), Get(item, "title"));
    OrTruthy(Get(item, "type"), Get(item, "signature"));
    Hit(
      Or(Get(item, "name"), Or(Get(item, "declName"), Get(item, "title"))),
      Or(Get(item, "type"), Get(item, "signature")),
      Get(item, "doc"),
      Or(Get(item, "source"), JString(webUrl)))
  }

  /** The envelope returned when anything in the `try` block raises. */
  function ErrorReply(query: string, webUrl: string, message: string): (r: SearchReply)
    ensures r.count == 0 && r.results == []
    ensures r.error.Some? && StartsWith(r.error.value, ErrorPrefix)
  {
    SearchReply(query, 0, [], webUrl, Some(ErrorPrefix + message))
  }

  /** The exception text for slicing a value that is not a sequence. */
  function NotSliceableMessage(items: Json): string {
    if items.JObject? then "unhashable type: 'slice'"
    else "'" + TypeName(items) + "' object is not subscriptable"
  }

  /** The exception text for calling `.get` on an entry that is not an object. */
  function NoGetMessage(item: Json): string {
    "'" + TypeName(item) + "' object has no attribute 'get'"
  }

  /** The reference definition of the reply. */
  function Search(query: string, limit: int, encoded: string, fetched: Fetched): SearchReply
  {
    var webUrl := WebUrl(encoded);
    match fetched
    case FetchFailed(reason) => ErrorReply(query, webUrl, reason)
    case Received(payload) =>
      var items := SelectItems(payload);
      match Window(items, limit)
      case None => ErrorReply(query, webUrl, NotSliceableMessage(items))
      case Some(window) =>
        match FirstNonObject(window)
        case Some(k) => ErrorReply(query, webUrl, NoGetMessage(window[k]))
        case None =>
          var hits := seq(|window|, i requires 0 <= i < |window| => NormalizeItem(window[i].members, webUrl));
          SearchReply(query, |hits|, hits, webUrl, None)
  }

  /** `_run(query, limit)` once the reply has been fetched and decoded. */
  method Run(query: string, limit: int, encoded: string, fetched: Fetched) returns (reply: SearchReply)
    ensures reply == Search(query, limit, encoded, fetched)
  {
    var webUrl := WebUrl(encoded);
    if fetched.FetchFailed? {
      return ErrorReply(query, webUrl, fetched.reason);
    }
    var items := SelectItems(fetched.payload);
    var window := Window(items, limit);
    if window.None? {
      return ErrorReply(query, webUrl, NotSliceableMessage(items));
    }
    var entries := window.value;
    var normalized: seq<Hit> := [];
    for k := 0 to |entries|
      invariant |normalized| == k
      invariant forall i | 0 <= i < k :: entries[i].JObject? && normalized[i] == NormalizeItem(entries[i].members, webUrl)
    {
      var item := entries[k];
      if !item.JObject? {
        assert FirstNonObject(entries) == Some(k);
        return ErrorReply(query, webUrl, NoGetMessage(item));
      }
      normalized := normalized + [NormalizeItem(item.members, webUrl)];
    }
    return SearchReply(query, |normalized|, normalized, webUrl, None);
  }

  // ----- Properties of the reply -----

  /** Every reply echoes the query and the search page, and counts exactly the hits it carries; an error reply carries none. */
  lemma ReplyShape(query: string, limit: int, encoded: string, fetched: Fetched)
    ensures Search(query, limit, encoded, fetched).query == query
    ensures Search(query, limit, encoded, fetched).source == WebUrl(encoded)
    ensures Search(query, limit, encoded, fetched).count == |Search(query, limit, encoded, fetched).results|
    ensures Search(query, limit, encoded, fetched).error.Some? ==>
              Search(query, limit, encoded, fetched).results == []
              && StartsWith(Search(query, limit, encoded, fetched).error.value, ErrorPrefix)
  {
  }

  /** A failed fetch reports its exception text after the prefix. */
  lemma FetchFailureReported(query: string, limit: int, encoded: string, reason: string)
    ensures Search(query, limit, encoded, FetchFailed(reason)).error == Some(ErrorPrefix + reason)
  {
  }

  /**
   * The reply is an error exactly when the fetch failed, the selected hit list
   * cannot be sliced, or one of the entries taken is not an object.
   */
  lemma ErrorExactly(query: string, limit: int, encoded: string, fetched: Fetched)
    ensures Search(query, limit, encoded, fetched).error.None? <==>
              && fetched.Received?
              && Window(SelectItems(fetched.payload), limit).Some?
              && forall i | 0 <= i < |Window(SelectItems(fetched.payload), limit).value| ::
                   Window(SelectItems(fetched.payload), limit).value[i].JObject?
  {
    if fetched.Received? && Window(SelectItems(fetched.payload), limit).Some? {
      var window := Window(SelectItems(fetched.payload), limit).value;
      if FirstNonObject(window).Some? {
        assert !window[FirstNonObject(window).value].JObject?;
      }
    }
  }

  /**
   * A successful reply holds the first `SliceEnd` entries of the hit list, in
   * order, each normalised; so it never holds more than the list has, nor
   * more than a non-negative limit.
   */
  lemma HitsArePrefix(query: string, limit: int, encoded: string, payload: Json)
    requires SelectItems(payload).JArray?
    requires Search(query, limit, encoded, Received(payload)).error.None?
    ensures Search(query, limit, encoded, Received(payload)).count == SliceEnd(|SelectItems(payload).items|, limit)
    ensures 0 <= limit ==> Search(query, limit, encoded, Received(payload)).count <= limit
    ensures forall k | 0 <= k < Search(query, limit, encoded, Received(payload)).count ::
              SelectItems(payload).items[k].JObject?
              && Search(query, limit, encoded, Received(payload)).results[k]
                 == NormalizeItem(SelectItems(payload).items[k].members, WebUrl(encoded))
  {
  }

  /** A hit list given as a string yields an error unless the slice of it is empty. */
  lemma StringHitsFail(query: string, limit: int, encoded: string, payload: Json)
    requires SelectItems(payload).JString?
    ensures Search(query, limit, encoded, Received(payload)).error.None? <==>
              SliceEnd(|SelectItems(payload).s|, limit) == 0
  {
    var items := SelectItems(payload);
    var window := Window(items, limit).value;
    if window != [] {
      assert FirstNonObject(window) == Some(0);
    }
  }

  /** An object payload uses `hits` when truthy, else `results` when truthy, else nothing. */
  lemma ObjectPayloadSelection(members: map<string, Json>)
    ensures Truthy(Get(members, "hits")) ==> SelectItems(JObject(members)) == Get(members, "hits")
    ensures !Truthy(Get(members, "hits")) && Truthy(Get(members, "results")) ==>
              SelectItems(JObject(members)) == Get(members, "results")
    ensures !Truthy(Get(members, "hits")) && !Truthy(Get(members, "results")) ==>
              SelectItems(JObject(members)) == JArray([])
  {
  }

  /** The default limit is one the input schema admits. */
  lemma DefaultLimitAdmitted()
    ensures MinLimit <= DefaultLimit <= MaxLimit
  {
  }

  /**
   * With a limit the input schema admits (1 to 20) and a list of
   * object hits, the reply holds `min(limit, n)` of them, at least one when
   * there are any.
   */
  lemma SchemaLimitTakesLeadingHits(query: string, limit: int, encoded: string, hits: seq<Json>)
    requires MinLimit <= limit <= MaxLimit
    requires forall i | 0 <= i < |hits| :: hits[i].JObject?
    ensures Search(query, limit, encoded, Received(JArray(hits))).error.None?
    ensures Search(query, limit, encoded, Received(JArray(hits))).count == if limit < |hits| then limit else |hits|
    ensures hits != [] ==> Search(query, limit, encoded, Received(JArray(hits))).count >= 1
  {
    var window := Window(JArray(hits), limit).value;
    assert FirstNonObject(window).None?;
  }
}
