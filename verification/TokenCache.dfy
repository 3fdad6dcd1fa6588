/** The cached B2B access token of the ION service. Times are nanoseconds. */
module TokenCacheModule {
  import opened Wrappers

  const SECOND: int := 1_000_000_000
  const MARGIN: int := 50 * SECOND
  const DEFAULT_TTL: int := 900 * SECOND
  const CLIENT_TIMEOUT: int := 15 * SECOND

  datatype CachedToken = CachedToken(token: string, expiresAt: int)

  /** What the token endpoint answers; Failed stands for every error before a body is decoded. */
  datatype Reply = Failed | Answer(token: string, expiresIn: int)

  /** One call under the mutex: the cache is checked at `start`; a fetch would be answered with `reply`, issued by
      the provider at `issued` and received at `end`. */
  datatype Call = Call(start: int, issued: int, end: int, reply: Reply)

  datatype Outcome = FromCache(token: string) | Fetched(token: string) | Error

  /** The lifetime of an answered token; a missing or non-positive one counts as 900 s. */
  function Lifetime(reply: Reply): int
    requires reply.Answer?
  {
    if reply.expiresIn * SECOND <= 0 then DEFAULT_TTL else reply.expiresIn * SECOND
  }

  predicate Usable(cache: Option<CachedToken>, now: int) {
    cache.Some? && now < cache.value.expiresAt
  }

  predicate Succeeds(reply: Reply) {
    reply.Answer? && reply.token != ""
  }

  function Result(cache: Option<CachedToken>, c: Call): Outcome {
    if Usable(cache, c.start) then FromCache(cache.value.token)
    else if Succeeds(c.reply) then Fetched(c.reply.token)
    else Error
  }

  function Stored(c: Call): CachedToken
    requires c.reply.Answer?
  {
    CachedToken(c.reply.token, c.end + Lifetime(c.reply) - MARGIN)
  }

  function Updated(cache: Option<CachedToken>, c: Call): Option<CachedToken> {
    if Result(cache, c).Fetched? then Some(Stored(c)) else cache
  }

  class TokenService {
    var snapToken: Option<CachedToken>

    constructor ()
      ensures snapToken == None
    {
      snapToken := None;
    }

    method GetB2BToken(c: Call) returns (r: Outcome)
      modifies this
      ensures r == Result(old(snapToken), c)
      ensures snapToken == Updated(old(snapToken), c)
    {
      if snapToken.Some? && c.start < snapToken.value.expiresAt {
        return FromCache(snapToken.value.token);
      }
      if c.reply.Failed? {
        return Error;
      }
      if c.reply.token == "" {
        return Error;
      }
      var ttl := c.reply.expiresIn * SECOND;
      if ttl <= 0 {
        ttl := 900 * SECOND;
      }
      snapToken := Some(CachedToken(c.reply.token, c.end + (ttl - 50 * SECOND)));
      r := Fetched(snapToken.value.token);
    }
  }

  // ---- Runs: any sequence of calls, one at a time because of the mutex ----

  function CacheAfter(calls: seq<Call>): Option<CachedToken> {
    if calls == [] then None else Updated(CacheAfter(calls[..|calls| - 1]), calls[|calls| - 1])
  }

  /** The outcome of the n-th call. */
  function ResultAt(calls: seq<Call>, n: nat): Outcome
    requires n < |calls|
  {
    Result(CacheAfter(calls[..n]), calls[n])
  }

  ghost predicate OneAtATime(calls: seq<Call>) {
    && (forall i :: 0 <= i < |calls| ==> calls[i].start <= calls[i].issued <= calls[i].end)
    && (forall i, j :: 0 <= i < j < |calls| ==> calls[i].end <= calls[j].start)
  }

  /** Call m is the latest of `calls` that fetched a token. */
  ghost predicate IsLastFetch(calls: seq<Call>, m: nat) {
    m < |calls| && ResultAt(calls, m).Fetched? && forall i :: m < i < |calls| ==> !ResultAt(calls, i).Fetched?
  }

  lemma PrefixResults(calls: seq<Call>, k: nat)
    requires k <= |calls|
    ensures forall i :: 0 <= i < k ==> ResultAt(calls[..k], i) == ResultAt(calls, i)
  {
    forall i | 0 <= i < k ensures ResultAt(calls[..k], i) == ResultAt(calls, i) {
      assert calls[..k][..i] == calls[..i];
    }
  }

  lemma {:induction false} CacheIsLastFetch(calls: seq<Call>) returns (m: nat)
    requires CacheAfter(calls).Some?
    ensures IsLastFetch(calls, m) && CacheAfter(calls) == Some(Stored(calls[m]))
  {
    var last := |calls| - 1;
    if ResultAt(calls, last).Fetched? {
      m := last;
    } else {
      m := CacheIsLastFetch(calls[..last]);
      PrefixResults(calls, last);
    }
  }

  /** When the provider stops honouring the token fetched by `c`. */
  function ExpiryOf(c: Call): int
    requires c.reply.Answer?
  {
    c.issued + Lifetime(c.reply)
  }

  /** A call is served from the cache if and only if some call fetched a token and the latest one that did received,
      less than its lifetime minus 50 s ago, a token of that lifetime; 900 s when the answer names none. */
  lemma ServedExactly(calls: seq<Call>, n: nat)
    requires n < |calls|
    ensures ResultAt(calls, n).FromCache? <==>
      exists m: nat :: m < n && IsLastFetch(calls[..n], m) && calls[m].reply.Answer? &&
        calls[n].start < calls[m].end - 50_000_000_000 +
          (if calls[m].reply.expiresIn > 0 then calls[m].reply.expiresIn * 1_000_000_000 else 900_000_000_000)
    ensures !ResultAt(calls, n).FromCache? ==>
      ResultAt(calls, n) ==
      if calls[n].reply.Answer? && calls[n].reply.token != "" then Fetched(calls[n].reply.token) else Error
  {
    var before := calls[..n];
    if CacheAfter(before).Some? {
      var last := CacheIsLastFetch(before);
      assert calls[last] == before[last] && ResultAt(before, last).Fetched?;
      forall m: nat | IsLastFetch(before, m) ensures m == last {
        assert !(m < last) && !(last < m);
      }
    } else {
      NoFetchNoCache(before);
    }
  }

  lemma {:induction false} NoFetchNoCache(calls: seq<Call>)
    requires CacheAfter(calls) == None
    ensures forall m: nat :: !IsLastFetch(calls, m)
  {
    if calls != [] {
      var last := |calls| - 1;
      NoFetchNoCache(calls[..last]);
      PrefixResults(calls, last);
      forall m: nat ensures !IsLastFetch(calls, m) {
        assert m < last ==> (IsLastFetch(calls, m) ==> IsLastFetch(calls[..last], m));
      }
    }
  }

  /** A token served from the cache is the one fetched last, and it stays good for more than 50 s less the latency
      of that fetch. */
  lemma CachedTokenStillGood(calls: seq<Call>, n: nat) returns (m: nat)
    requires OneAtATime(calls) && n < |calls| && ResultAt(calls, n).FromCache?
    ensures IsLastFetch(calls[..n], m) && m < n
    ensures ResultAt(calls, n).token == calls[m].reply.token != ""
    ensures ExpiryOf(calls[m]) - calls[n].start > MARGIN - (calls[m].end - calls[m].start)
  {
    m := CacheIsLastFetch(calls[..n]);
  }

  /** With every fetch inside the 15 s client timeout that leaves more than 35 s. */
  lemma CachedTokenGoodFor35Seconds(calls: seq<Call>, n: nat) returns (m: nat)
    requires OneAtATime(calls) && n < |calls| && ResultAt(calls, n).FromCache?
    requires forall i :: 0 <= i < |calls| ==> calls[i].end - calls[i].start <= CLIENT_TIMEOUT
    ensures IsLastFetch(calls[..n], m) && m < n
    ensures ExpiryOf(calls[m]) - calls[n].start > 35 * SECOND
  {
    m := CachedTokenStillGood(calls, n);
  }

  /** The cache is of use only for lifetimes above the margin: at or below 50 s every call fetches again. */
  lemma ShortLivedNeverCached(calls: seq<Call>, n: nat)
    requires OneAtATime(calls) && n < |calls|
    requires forall i :: 0 <= i < |calls| && calls[i].reply.Answer? ==> Lifetime(calls[i].reply) <= MARGIN
    ensures !ResultAt(calls, n).FromCache?
  {
    if CacheAfter(calls[..n]).Some? {
      var m := CacheIsLastFetch(calls[..n]);
    }
  }

  // ---- How often a token is fetched ----

  function Fetches(calls: seq<Call>): nat {
    if calls == [] then 0
    else Fetches(calls[..|calls| - 1]) + if ResultAt(calls, |calls| - 1).Fetched? then 1 else 0
  }

  ghost predicate ConstantLifetime(calls: seq<Call>, ttl: int) {
    forall i :: 0 <= i < |calls| && Succeeds(calls[i].reply) ==> Lifetime(calls[i].reply) == ttl
  }

  /** The least time by which n fetches push the expiry. */
  function Spread(n: int, gap: int): int {
    n * gap
  }

  lemma OneMoreFetch(n: int, gap: int)
    ensures Spread(n + 1, gap) == Spread(n, gap) + gap && Spread(0, gap) == 0
  {
  }

  /** After n fetches the cached token expires at least n * (ttl - 50 s) after the first call started. */
  lemma {:induction false} FetchesPushExpiry(calls: seq<Call>, ttl: int)
    requires OneAtATime(calls) && ConstantLifetime(calls, ttl)
    ensures Fetches(calls) > 0 ==>
              && CacheAfter(calls).Some?
              && CacheAfter(calls).value.expiresAt >= calls[0].start + Spread(Fetches(calls), ttl - MARGIN)
    ensures Fetches(calls) == 0 ==> CacheAfter(calls) == None
  {
    if calls != [] {
      var last := |calls| - 1;
      var before := calls[..last];
      FetchesPushExpiry(before, ttl);
      OneMoreFetch(Fetches(before), ttl - MARGIN);
      if ResultAt(calls, last).Fetched? {
        assert CacheAfter(calls) == Some(Stored(calls[last]));
        assert Fetches(before) > 0 ==> CacheAfter(before).value.expiresAt <= calls[last].start;
      }
    }
  }

  /** n fetches of equally long-lived tokens take at least (n - 1) * (ttl - 50 s). */
  lemma {:induction false} FetchesSpread(calls: seq<Call>, ttl: int)
    requires calls != [] && OneAtATime(calls) && ConstantLifetime(calls, ttl) && ttl > MARGIN
    ensures Spread(Fetches(calls) - 1, ttl - MARGIN) <= calls[|calls| - 1].end - calls[0].start
  {
    var last := |calls| - 1;
    var before := calls[..last];
    if last == 0 {
      assert before == [];
      OneMoreFetch(-1, ttl - MARGIN);
      OneMoreFetch(0, ttl - MARGIN);
    } else if ResultAt(calls, last).Fetched? {
      FetchesPushExpiry(before, ttl);
    } else {
      FetchesSpread(before, ttl);
    }
  }

  /** Over a span T the token is fetched at most 1 + T / (ttl - 50 s) times. */
  lemma FetchesBounded(calls: seq<Call>, ttl: int)
    requires calls != [] && OneAtATime(calls) && ConstantLifetime(calls, ttl) && ttl > MARGIN
    ensures Fetches(calls) <= 1 + (calls[|calls| - 1].end - calls[0].start) / (ttl - MARGIN)
  {
    FetchesSpread(calls, ttl);
    DivisionBound(Fetches(calls) - 1, ttl - MARGIN, calls[|calls| - 1].end - calls[0].start);
  }

  lemma DivisionBound(n: int, d: int, t: int)
    requires d > 0 && n * d <= t
    ensures n <= t / d
  {
    var q := t / d;
    assert t == q * d + t % d;
    assert n * d - q * d == (n - q) * d;
    AtLeast(n - q, d);
  }

  lemma AtLeast(x: int, d: int)
    requires d > 0
    ensures x >= 1 ==> x * d >= d
  {
    if x >= 1 {
      assert x * d == (x - 1) * d + d;
    }
  }
}
