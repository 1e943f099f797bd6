/**
 * The session cache of fetchMarkdown (copy-markdown.js). The page's
 * sessionStorage is a string-to-string map; a call looks up
 * `CACHE_KEY_PREFIX + url`, treats a missing or empty entry as a miss, and on
 * a miss fetches the URL and stores the body. The network is not modelled:
 * the response the fetch would produce is passed in.
 */
module MarkdownCache {
  import opened Wrappers

  const CACHE_KEY_PREFIX := "md_cache_"

  /** The prefix followed by the url: the url can be read back from its key, so two urls never share an entry. */
  function CacheKey(url: string): (key: string)
    ensures |key| == |CACHE_KEY_PREFIX| + |url|
    ensures key[..|CACHE_KEY_PREFIX|] == CACHE_KEY_PREFIX && key[|CACHE_KEY_PREFIX|..] == url
  {
    CACHE_KEY_PREFIX + url
  }

  /** What `fetch(url)` followed by `response.text()` produces. */
  datatype Response =
    | RequestFailed                          // fetch or text() rejects
    | HttpResponse(status: int, body: string)

  /** `response.ok`: a status in the range 200 to 299. */
  predicate IsOk(status: int) {
    200 <= status <= 299
  }

  /** What fetchMarkdown throws. */
  datatype FetchError =
    | NetworkError                 // the rejection of fetch or text(), passed through
    | BadStatus(status: int)       // "Failed to fetch: <status>"

  /** One call of fetchMarkdown: what it returns or throws, the storage after it, and whether it went to the network. */
  datatype FetchOutcome = FetchOutcome(result: Result<string, FetchError>, storage: map<string, string>, networkUsed: bool)

  /** `sessionStorage.getItem(key)`: the stored value, or null (None) when the key is absent. */
  function Lookup(storage: map<string, string>, key: string): Option<string> {
    if key in storage then Some(storage[key]) else None
  }

  /** JavaScript truthiness of what getItem returns: null and the empty string are falsy. */
  predicate Truthy(v: Option<string>) {
    v.Some? && v.value != ""
  }

  /** `if (cached)`: the cache answers exactly when a non-empty value is stored under the url's key. */
  predicate IsHit(storage: map<string, string>, url: string)
    ensures IsHit(storage, url) <==> CacheKey(url) in storage && storage[CacheKey(url)] != ""
  {
    Truthy(Lookup(storage, CacheKey(url)))
  }

  /** fetchMarkdown as a function of the storage before the call and the response the network would give. */
  function Fetch(storage: map<string, string>, url: string, response: Response): (r: FetchOutcome)
    ensures r.networkUsed <==> !IsHit(storage, url)
    ensures r.result.Success? ==> CacheKey(url) in r.storage && r.storage[CacheKey(url)] == r.result.value
    ensures r.result.Failure? ==> r.storage == storage && r.networkUsed
  {
    if IsHit(storage, url) then
      FetchOutcome(Success(storage[CacheKey(url)]), storage, false)
    else
      match response
      case RequestFailed => FetchOutcome(Failure(NetworkError), storage, true)
      case HttpResponse(status, body) =>
        if !IsOk(status) then FetchOutcome(Failure(BadStatus(status)), storage, true)
        else FetchOutcome(Success(body), storage[CacheKey(url) := body], true)
  }

  /** The storage after a series of fetchMarkdown calls, each a url and the response it would get. */
  function FetchAll(storage: map<string, string>, calls: seq<(string, Response)>): map<string, string>
    decreases |calls|
  {
    if calls == [] then storage
    else FetchAll(Fetch(storage, calls[0].0, calls[0].1).storage, calls[1..])
  }

  /** A hit returns the stored text, does not touch the network and changes nothing. */
  lemma CacheHit(storage: map<string, string>, url: string, response: Response)
    requires CacheKey(url) in storage && storage[CacheKey(url)] != ""
    ensures Fetch(storage, url, response) == FetchOutcome(Success(storage[CacheKey(url)]), storage, false)
  {
  }

  /** A stored empty string is a miss: the network is used as if nothing were stored. */
  lemma EmptyEntryIsMiss(storage: map<string, string>, url: string, response: Response)
    requires CacheKey(url) in storage && storage[CacheKey(url)] == ""
    ensures Fetch(storage, url, response).networkUsed
    ensures Fetch(storage, url, response).result == Fetch(map[], url, response).result
  {
  }

  /** A miss whose response is not ok throws and leaves the storage unchanged. */
  lemma MissFailureKeepsStorage(storage: map<string, string>, url: string, response: Response)
    requires !IsHit(storage, url)
    requires response.RequestFailed? || !IsOk(response.status)
    ensures Fetch(storage, url, response).result.Failure?
    ensures Fetch(storage, url, response).storage == storage
    ensures Fetch(storage, url, response).networkUsed
  {
  }

  /** A miss with an ok response returns the body and stores it under exactly the cache key of the url. */
  lemma MissSuccessStoresBody(storage: map<string, string>, url: string, status: int, body: string)
    requires !IsHit(storage, url) && IsOk(status)
    ensures var o := Fetch(storage, url, HttpResponse(status, body));
      && o.result == Success(body)
      && o.storage.Keys == storage.Keys + {CacheKey(url)}
      && o.storage[CacheKey(url)] == body
      && (forall k :: k in storage && k != CacheKey(url) ==> o.storage[k] == storage[k])
  {
  }

  /** Only the url's own key can change, and a non-empty entry never changes. */
  lemma FetchChangesOnlyItsKey(storage: map<string, string>, url: string, response: Response)
    ensures var after := Fetch(storage, url, response).storage;
      && storage.Keys <= after.Keys <= storage.Keys + {CacheKey(url)}
      && (forall k :: k in storage && (k != CacheKey(url) || storage[k] != "") ==> after[k] == storage[k])
  {
  }

  /** Non-empty entries survive any series of calls: the cache is write-once for them. */
  lemma {:induction false} NonEmptyEntriesPersist(storage: map<string, string>, calls: seq<(string, Response)>, key: string)
    requires key in storage && storage[key] != ""
    ensures key in FetchAll(storage, calls) && FetchAll(storage, calls)[key] == storage[key]
    decreases |calls|
  {
    if calls != [] {
      FetchChangesOnlyItsKey(storage, calls[0].0, calls[0].1);
      NonEmptyEntriesPersist(Fetch(storage, calls[0].0, calls[0].1).storage, calls[1..], key);
    }
  }

  /**
   * Once a url has been fetched with a non-empty body, every later call for it,
   * after any other calls, is answered from the cache with that body and
   * without a request.
   */
  lemma FetchedOnce(storage: map<string, string>, url: string, status: int, body: string,
                    between: seq<(string, Response)>, later: Response)
    requires !IsHit(storage, url) && IsOk(status) && body != ""
    ensures var o := Fetch(FetchAll(Fetch(storage, url, HttpResponse(status, body)).storage, between), url, later);
      o.result == Success(body) && !o.networkUsed
  {
    var first := Fetch(storage, url, HttpResponse(status, body)).storage;
    NonEmptyEntriesPersist(first, between, CacheKey(url));
  }

  /** The page's sessionStorage: string keys to string values. */
  class SessionStorage {
    var items: map<string, string>

    constructor ()
      ensures items == map[]
    {
      items := map[];
    }

    /** getItem: the stored value, or null (None) when the key is absent. */
    method GetItem(key: string) returns (value: Option<string>)
      ensures key in items ==> value == Some(items[key])
      ensures key !in items ==> value == None
    {
      if key in items {
        value := Some(items[key]);
      } else {
        value := None;
      }
    }

    /** setItem: stores the value under the key, replacing any earlier one. */
    method SetItem(key: string, value: string)
      modifies this
      ensures items == old(items)[key := value]
    {
      items := items[key := value];
    }
  }

  /** fetchMarkdown, with the response of the network passed in. */
  method FetchMarkdown(storage: SessionStorage, url: string, response: Response)
    returns (result: Result<string, FetchError>, networkUsed: bool)
    modifies storage
    ensures FetchOutcome(result, storage.items, networkUsed) == Fetch(old(storage.items), url, response)
  {
    var cacheKey := CacheKey(url);
    var cached := storage.GetItem(cacheKey);
    if Truthy(cached) {
      return Success(cached.value), false;
    }
    networkUsed := true;
    match response
    case RequestFailed =>
      result := Failure(NetworkError);
    case HttpResponse(status, body) =>
      if !IsOk(status) {
        result := Failure(BadStatus(status));
      } else {
        storage.SetItem(cacheKey, body);
        result := Success(body);
      }
  }
}
