/** The OpenAI token cache of the indexer (`open_ai_token_cache`) and the
    rule of `refresh_openai_token`: an Azure AD token older than 300 seconds
    is replaced before an embedding request. Clock readings and the token the
    credential hands out are parameters. */
module EmbeddingToken {
  import opened Wrappers

  /** The cache keys, which name the entry a `KeyError` reports. */
  const CacheKeyTokenCred := "openai_token_cred"
  const CacheKeyCreatedTime := "created_time"
  const CacheKeyTokenType := "token_type"

  const TokenMaxAge := 300

  /** `stop_after_attempt(15)` on `compute_embedding`. */
  const MaxAttempts := 15

  /** The credential object stored in the cache; only whether it is there
      matters to the refresh rule. */
  datatype Credential = Credential(name: string)

  /** The three cache entries (absent until `add_file` stores them) and
      `openai.api_key`. */
  datatype CacheState = CacheState(
    tokenType: Option<string>,
    createdTime: Option<int>,
    tokenCred: Option<Credential>,
    apiKey: string)

  /** How a call of `refresh_openai_token` ends: it replaced the key, left it
      alone, raised `KeyError` for a missing cache entry, or raised because
      `token_cred.get_token(...)` gave no token. */
  datatype RefreshOutcome = Refreshed | Unchanged | KeyError(key: string) | FetchFailed {
    predicate Raised() { KeyError? || FetchFailed? }
  }

  /** The cached Azure AD key is older than `TokenMaxAge` at time `now`. */
  predicate Stale(s: CacheState, now: int) {
    s.tokenType == Some("azure_ad") && s.createdTime.Some? && s.createdTime.value + TokenMaxAge < now
  }

  /** What one call of `refresh_openai_token` does to the cache, when the clock
      reads `now` at the age check and `stamp` after the new token arrives.
      `fetched` is the token `get_token` hands out, or `None` when that call
      raises. */
  function RefreshSpec(s: CacheState, now: int, fetched: Option<string>, stamp: int): (r: (CacheState, RefreshOutcome))
    ensures r.1 == KeyError(CacheKeyTokenType) <==> s.tokenType.None?
    ensures r.1 == KeyError(CacheKeyCreatedTime) <==> s.tokenType == Some("azure_ad") && s.createdTime.None?
    ensures r.1 == KeyError(CacheKeyTokenCred) <==> Stale(s, now) && s.tokenCred.None?
    ensures r.1.KeyError? ==> r.1.key in {CacheKeyTokenType, CacheKeyCreatedTime, CacheKeyTokenCred}
    ensures r.1.FetchFailed? <==> Stale(s, now) && s.tokenCred.Some? && fetched.None?
    ensures r.1.Refreshed? <==> Stale(s, now) && s.tokenCred.Some? && fetched.Some?
    ensures r.1.Refreshed? ==> r.0 == s.(apiKey := fetched.value, createdTime := Some(stamp))
    ensures !r.1.Refreshed? ==> r.0 == s
  {
    if s.tokenType.None? then (s, KeyError(CacheKeyTokenType))
    else if s.tokenType.value != "azure_ad" then (s, Unchanged)
    else if s.createdTime.None? then (s, KeyError(CacheKeyCreatedTime))
    else if !(s.createdTime.value + TokenMaxAge < now) then (s, Unchanged)
    else if s.tokenCred.None? then (s, KeyError(CacheKeyTokenCred))
    else if fetched.None? then (s, FetchFailed)
    else (s.(apiKey := fetched.value, createdTime := Some(stamp)), Refreshed)
  }

  /** A second call at the same instant does nothing. */
  lemma RefreshIdempotent(s: CacheState, now: int, f1: string, f2: Option<string>, stamp1: int, stamp2: int)
    requires now <= stamp1
    ensures var (t, o) := RefreshSpec(s, now, Some(f1), stamp1);
      RefreshSpec(t, now, f2, stamp2) == (t, if o.KeyError? then o else Unchanged)
  {
  }

  /** After a check that did not fail, an Azure AD key is at most 300 seconds
      old at the time of the check. */
  lemma RefreshLeavesFreshKey(s: CacheState, now: int, fetched: Option<string>, stamp: int)
    requires now <= stamp
    requires s.tokenType == Some("azure_ad")
    requires !RefreshSpec(s, now, fetched, stamp).1.Raised()
    ensures RefreshSpec(s, now, fetched, stamp).0.createdTime.Some?
    ensures now <= RefreshSpec(s, now, fetched, stamp).0.createdTime.value + TokenMaxAge
  {
  }

  /** `open_ai_token_cache` together with `openai.api_key`. */
  class TokenCache {
    var tokenType: Option<string>
    var createdTime: Option<int>
    var tokenCred: Option<Credential>
    var apiKey: string

    function State(): CacheState
      reads this
    {
      CacheState(tokenType, createdTime, tokenCred, apiKey)
    }

    /** The state `add_file` means to leave behind: an Azure AD key created
        at `now` (as written, `add_file` raises before it stores anything). */
    constructor AddFile(cred: Credential, key: string, now: int)
      ensures State() == CacheState(Some("azure_ad"), Some(now), Some(cred), key)
    {
      apiKey := key;
      createdTime := Some(now);
      tokenCred := Some(cred);
      tokenType := Some("azure_ad");
    }

    /** An empty cache, as `open_ai_token_cache = {}` leaves it at import. */
    constructor Empty(key: string)
      ensures State() == CacheState(None, None, None, key)
    {
      tokenType, createdTime, tokenCred, apiKey := None, None, None, key;
    }

    /** `refresh_openai_token()`. The exceptions it raises are reported here as
        the outcome. */
    method RefreshOpenAiToken(now: int, fetched: Option<string>, stamp: int) returns (outcome: RefreshOutcome)
      modifies this
      ensures (State(), outcome) == RefreshSpec(old(State()), now, fetched, stamp)
    {
      if tokenType.None? {
        return KeyError(CacheKeyTokenType);
      }
      if tokenType.value == "azure_ad" {
        if createdTime.None? {
          return KeyError(CacheKeyCreatedTime);
        }
        if createdTime.value + TokenMaxAge < now {
          if tokenCred.None? {
            return KeyError(CacheKeyTokenCred);
          }
          if fetched.None? {
            return FetchFailed;
          }
          apiKey := fetched.value;
          createdTime := Some(stamp);
          return Refreshed;
        }
      }
      return Unchanged;
    }
  }

  // ---------------------------------------------------------------------------
  // compute_embedding: refresh before every attempt

  type Embedding = seq<real>

  /** The environment of one attempt: the two clock readings of the refresh,
      the token the credential hands out (`None`: `get_token` raised), and the reply of the
      embeddings API (`None`: the call raised, for instance when rate
      limited). */
  datatype Attempt = Attempt(now: int, fetched: Option<string>, stamp: int, reply: Option<Embedding>)

  /** The attempts tenacity makes from attempt `k` on: each one refreshes the
      token, then calls the API; any exception (one raised by the refresh
      included) leads to the next attempt. The end of `attempts` stands for
      giving up with `RetryError`. */
  function Retry(s: CacheState, attempts: seq<Attempt>, k: nat): (r: (CacheState, Option<Embedding>))
    requires k <= |attempts|
    ensures r.1.Some? ==> exists j | k <= j < |attempts| :: r.1 == attempts[j].reply
    ensures r.0.tokenType == s.tokenType && r.0.tokenCred == s.tokenCred
    ensures r.0.apiKey == s.apiKey || exists j | k <= j < |attempts| :: attempts[j].fetched == Some(r.0.apiKey)
    decreases |attempts| - k
  {
    if k == |attempts| then (s, None)
    else
      var a := attempts[k];
      var (t, o) := RefreshSpec(s, a.now, a.fetched, a.stamp);
      if !o.Raised() && a.reply.Some? then (t, a.reply) else Retry(t, attempts, k + 1)
  }

  /** An embedding is always obtained in an attempt whose refresh succeeded,
      so an Azure AD key was at most 300 seconds old when the request went
      out. */
  lemma {:induction false} RetryUsesFreshKey(s: CacheState, attempts: seq<Attempt>, k: nat)
    requires k <= |attempts|
    requires forall j | 0 <= j < |attempts| :: attempts[j].now <= attempts[j].stamp
    requires s.tokenType == Some("azure_ad")
    requires Retry(s, attempts, k).1.Some?
    ensures exists j | k <= j < |attempts| ::
      Retry(s, attempts, k).1 == attempts[j].reply &&
      Retry(s, attempts, k).0.createdTime.Some? &&
      attempts[j].now <= Retry(s, attempts, k).0.createdTime.value + TokenMaxAge
    decreases |attempts| - k
  {
    var a := attempts[k];
    var (t, o) := RefreshSpec(s, a.now, a.fetched, a.stamp);
    if !o.Raised() && a.reply.Some? {
      RefreshLeavesFreshKey(s, a.now, a.fetched, a.stamp);
    } else {
      RetryUsesFreshKey(t, attempts, k + 1);
    }
  }

  /** When `get_token` gives no token (as with an asynchronous credential whose
      result is not awaited), a key that has gone stale is never replaced and
      every attempt fails: no embedding is ever obtained. */
  lemma {:induction false} FailedFetchNeverEmbeds(s: CacheState, attempts: seq<Attempt>, k: nat)
    requires k <= |attempts|
    requires s.tokenCred.Some?
    requires forall j | k <= j < |attempts| :: Stale(s, attempts[j].now) && attempts[j].fetched.None?
    ensures Retry(s, attempts, k) == (s, None)
    decreases |attempts| - k
  {
    if k < |attempts| {
      var a := attempts[k];
      assert RefreshSpec(s, a.now, a.fetched, a.stamp) == (s, FetchFailed);
      FailedFetchNeverEmbeds(s, attempts, k + 1);
    }
  }

  /** `compute_embedding(text)` under `@retry(stop=stop_after_attempt(15))`. */
  method ComputeEmbedding(cache: TokenCache, attempts: seq<Attempt>) returns (embedding: Option<Embedding>)
    requires |attempts| == MaxAttempts
    modifies cache
    ensures (cache.State(), embedding) == Retry(old(cache.State()), attempts, 0)
  {
    var k := 0;
    while k < MaxAttempts
      invariant 0 <= k <= MaxAttempts
      invariant Retry(cache.State(), attempts, k) == Retry(old(cache.State()), attempts, 0)
    {
      var a := attempts[k];
      var outcome := cache.RefreshOpenAiToken(a.now, a.fetched, a.stamp);
      if !outcome.Raised() && a.reply.Some? {
        return a.reply;
      }
      k := k + 1;
    }
    return None;
  }
}
