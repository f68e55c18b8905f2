/**
 The model catalog cache.  Requests share fetches, fetches may finish in any order and long after
 they were given up, and accounts are invalidated in between.  A logical clock, advanced by every
 fetch and every invalidation, says which of them began first.
 */
module ModelCatalog {
  import opened Options

  type AccountId = string

  /** `startedAt` is when the source was asked. */
  datatype Catalog = Catalog(account: AccountId, generation: nat, credentialGeneration: nat, startedAt: nat)

  datatype Outcome = Running | Succeeded | Failed

  datatype Fetch = Fetch(catalog: Catalog, waiters: int, outcome: Outcome, settled: bool, aborted: bool)

  /** A request that waits for a fetch; `since` is the last invalidation before it began. */
  datatype Request = Request(fetch: nat, account: AccountId, credentialGeneration: nat, since: nat)

  datatype Event =
    | Ask(account: AccountId, credential: nat)
    | Complete(id: nat, ok: bool)
    | Settle(id: nat)
    | Leave(request: nat)
    | Invalidate(account: AccountId)
    | Close

  datatype Answer = Hit(catalog: Catalog) | Waits(request: nat) | Closed

  /** The invalidation counters and times, and the newest credential generation asked for. */
  datatype Epochs = Epochs(generations: map<AccountId, nat>, credentials: map<AccountId, nat>,
                           invalidatedAt: map<AccountId, nat>, clock: nat)
  {
    function Generation(a: AccountId): nat {
      if a in generations then generations[a] else 0
    }

    function Since(a: AccountId): nat {
      if a in invalidatedAt then invalidatedAt[a] else 0
    }

    /** A catalog of the current generation was fetched after the last invalidation. */
    predicate Fresh(c: Catalog) {
      c.startedAt < clock && c.generation <= Generation(c.account)
      && (c.generation == Generation(c.account) ==> c.startedAt >= Since(c.account))
      && c.account in credentials && c.credentialGeneration <= credentials[c.account]
    }

    predicate Valid() {
      forall a | a in invalidatedAt :: invalidatedAt[a] <= clock
    }

    function Invalidated(a: AccountId): Epochs {
      Epochs(generations[a := Generation(a) + 1], credentials, invalidatedAt[a := clock + 1], clock + 1)
    }

    function Asked(a: AccountId, credential: nat): Epochs {
      var known := if a in credentials then credentials[a] else credential;
      this.(credentials := credentials[a := if credential > known then credential else known])
    }

    function Cleared(cached: set<AccountId>): Epochs {
      this.(generations := map a | a in cached + generations.Keys :: Generation(a) + 1)
    }

    /** A catalog that was fresh stays so: time only makes it a catalog of an old generation. */
    lemma StaysFresh(c: Catalog, a: AccountId, credential: nat, cached: set<AccountId>)
      requires Fresh(c)
      ensures Invalidated(a).Fresh(c) && Asked(a, credential).Fresh(c) && Cleared(cached).Fresh(c)
      ensures this.(clock := clock + 1).Fresh(c)
      ensures a == c.account ==> c.generation < Invalidated(a).Generation(a)
    {
    }
  }

  function WaitingFor(requests: map<nat, Request>, id: nat): set<nat> {
    set r | r in requests && requests[r].fetch == id
  }

  /** The cache holds catalogs of the current generation only. */
  ghost predicate CacheOk(cache: map<AccountId, Catalog>, now: Epochs) {
    forall a | a in cache ::
      cache[a].account == a && cache[a].generation == now.Generation(a) && now.Fresh(cache[a])
  }

  ghost predicate FetchesOk(fetches: map<nat, Fetch>, now: Epochs) {
    forall id | id in fetches :: id < now.clock && now.Fresh(fetches[id].catalog)
  }

  /** The number of waiters of a fetch is exact. */
  ghost predicate CountsOk(fetches: map<nat, Fetch>, requests: map<nat, Request>) {
    forall id | id in fetches :: fetches[id].waiters == |WaitingFor(requests, id)|
  }

  /** Whoever waits gets a catalog with the credentials asked for, fetched since the last
      invalidation before the request, whatever is invalidated later. */
  predicate RequestOk(fetches: map<nat, Fetch>, q: Request) {
    q.fetch in fetches
    && fetches[q.fetch].catalog.account == q.account
    && fetches[q.fetch].catalog.credentialGeneration == q.credentialGeneration
    && fetches[q.fetch].catalog.startedAt >= q.since
  }

  ghost predicate RequestsOk(fetches: map<nat, Fetch>, requests: map<nat, Request>, issued: nat) {
    forall r | r in requests :: r < issued && RequestOk(fetches, requests[r])
  }

  ghost predicate InflightOk(fetches: map<nat, Fetch>, inflight: map<AccountId, nat>) {
    forall a | a in inflight :: inflight[a] in fetches && fetches[inflight[a]].catalog.account == a
  }

  class CopilotModelCatalog {
    var cache: map<AccountId, Catalog>
    var now: Epochs
    var inflight: map<AccountId, nat>
    var fetches: map<nat, Fetch>          // every fetch ever started, by number
    var requests: map<nat, Request>       // the requests that wait
    var issued: nat
    var closed: bool

    ghost predicate Valid()
      reads this
    {
      now.Valid() && CacheOk(cache, now) && FetchesOk(fetches, now) && CountsOk(fetches, requests)
      && RequestsOk(fetches, requests, issued) && InflightOk(fetches, inflight)
      && (closed ==> cache == map[] && inflight == map[])
    }

    constructor ()
      ensures Valid() && !closed
    {
      cache, now, inflight := map[], Epochs(map[], map[], map[], 0), map[];
      fetches, requests, issued, closed := map[], map[], 0, false;
    }

    /** The fetch that a request for these credentials can share. */
    predicate Shareable(a: AccountId, credential: nat, id: nat)
      reads `now, `inflight, `fetches
    {
      a in inflight && inflight[a] == id && id in fetches && !fetches[id].aborted
      && fetches[id].catalog.generation == now.Generation(a) && fetches[id].catalog.credentialGeneration == credential
    }

    /** The synchronous part of `get`. */
    method Get(a: AccountId, credential: nat) returns (r: Answer)
      requires Valid()
      modifies this
      ensures Valid() && closed == old(closed) && cache == old(cache)
      ensures r.Closed? <==> closed
      ensures r.Hit? ==>
                r.catalog.account == a && r.catalog.credentialGeneration == credential
                && r.catalog.startedAt >= old(now).Since(a)
      ensures r.Waits? ==>
                r.request !in old(requests) && r.request in requests
                && requests == old(requests)[r.request := requests[r.request]]
                && requests[r.request].account == a && requests[r.request].credentialGeneration == credential
                && requests[r.request].since == old(now).Since(a)
      ensures r.Hit? <==> !closed && a in cache && cache[a].credentialGeneration == credential
      ensures r.Hit? ==> r.catalog == cache[a]
      ensures !r.Waits? ==> fetches == old(fetches) && inflight == old(inflight) && requests == old(requests)
      ensures r.Waits? ==>
                var id := requests[r.request].fetch;
                if exists i | i in old(fetches) :: old(Shareable(a, credential, i)) then
                  old(Shareable(a, credential, id)) && inflight == old(inflight)
                  && fetches == old(fetches)[id := old(fetches)[id].(waiters := old(fetches)[id].waiters + 1)]
                else
                  id !in old(fetches) && inflight == old(inflight)[a := id]
                  && fetches == old(fetches)[id := Fetch(Catalog(a, old(now).Generation(a), credential, old(now).clock),
                                                         1, Running, false, false)]
      ensures now.generations == old(now).generations && now.invalidatedAt == old(now).invalidatedAt
      ensures var asked := old(now).credentials;
              now.credentials == if closed then asked
                                 else asked[a := if a in asked && asked[a] > credential then asked[a] else credential]
    {
      hide CacheOk, FetchesOk, CountsOk, RequestsOk, InflightOk, Epochs.Fresh, Epochs.Valid;
      if closed { return Closed; }
      AskKeeps(a, credential);
      now := now.Asked(a, credential);
      if a in cache && cache[a].credentialGeneration == credential {
        HitIsFresh(a);
        return Hit(cache[a]);
      }
      var q := AwaitFetch(a, credential);
      r := Waits(q);
    }

    /** Waits for the fetch that can be shared, or for a new one. */
    method AwaitFetch(a: AccountId, credential: nat) returns (q: nat)
      requires Valid() && !closed && a in now.credentials && credential <= now.credentials[a]
      modifies `inflight, `fetches, `now, `requests, `issued
      ensures Valid()
      ensures q !in old(requests)
      ensures q in requests
              && requests == old(requests)[q := Request(requests[q].fetch, a, credential, old(now).Since(a))]
      ensures var id := requests[q].fetch;
              if exists i | i in old(fetches) :: old(Shareable(a, credential, i)) then
                old(Shareable(a, credential, id)) && inflight == old(inflight) && now == old(now)
                && fetches == old(fetches)[id := old(fetches)[id].(waiters := old(fetches)[id].waiters + 1)]
              else
                id !in old(fetches) && inflight == old(inflight)[a := id]
                && now == old(now).(clock := old(now).clock + 1)
                && fetches == old(fetches)[id := Fetch(Catalog(a, old(now).Generation(a), credential, old(now).clock),
                                                       1, Running, false, false)]
    {
      hide CacheOk, FetchesOk, CountsOk, RequestsOk, InflightOk, Epochs.Fresh, Epochs.Valid;
      var generation := now.Generation(a);
      if a in inflight {
        InflightIs(a);
        var pending := fetches[inflight[a]];
        if !pending.aborted && pending.catalog.generation == generation
           && pending.catalog.credentialGeneration == credential {
          assert old(Shareable(a, credential, inflight[a]));
          q := Join(inflight[a]);
          return;
        }
      }
      var id := Start(a, generation, credential);
      q := Join(id);
    }

    lemma AskKeeps(a: AccountId, credential: nat)
      requires now.Valid() && CacheOk(cache, now) && FetchesOk(fetches, now)
      ensures var next := now.Asked(a, credential);
              next.Valid() && CacheOk(cache, next) && FetchesOk(fetches, next)
              && a in next.credentials && credential <= next.credentials[a] && next.Since(a) == now.Since(a)
    {
      hide Epochs.Fresh;
      AllStayFresh(a, credential);
    }

    /** Nothing that changes the epochs makes a catalog fresher than it is. */
    lemma AllStayFresh(a: AccountId, credential: nat)
      ensures forall c | now.Fresh(c) ::
                now.Asked(a, credential).Fresh(c) && now.Invalidated(a).Fresh(c)
                && now.Cleared(cache.Keys).Fresh(c) && now.(clock := now.clock + 1).Fresh(c)
    {
      hide Epochs.Fresh;
      forall c | now.Fresh(c)
        ensures now.Asked(a, credential).Fresh(c) && now.Invalidated(a).Fresh(c)
                && now.Cleared(cache.Keys).Fresh(c) && now.(clock := now.clock + 1).Fresh(c)
      {
        now.StaysFresh(c, a, credential, cache.Keys);
      }
    }

    lemma HitIsFresh(a: AccountId)
      requires CacheOk(cache, now) && a in cache
      ensures cache[a].account == a && cache[a].startedAt >= now.Since(a)
    {
    }

    lemma InflightIs(a: AccountId)
      requires InflightOk(fetches, inflight) && a in inflight
      ensures inflight[a] in fetches && fetches[inflight[a]].catalog.account == a
    {
    }

    method Start(a: AccountId, generation: nat, credential: nat) returns (id: nat)
      requires Valid() && !closed && generation == now.Generation(a)
      requires a in now.credentials && credential <= now.credentials[a]
      modifies `inflight, `fetches, `now
      ensures Valid() && id !in old(fetches)
      ensures inflight == old(inflight)[a := id] && now == old(now).(clock := old(now).clock + 1)
      ensures fetches == old(fetches)[id := Fetch(Catalog(a, generation, credential, old(now).clock),
                                                  0, Running, false, false)]
    {
      hide CacheOk, FetchesOk, CountsOk, RequestsOk, InflightOk, Epochs.Fresh, Epochs.Valid;
      id := now.clock;
      var fetch := Fetch(Catalog(a, generation, credential, now.clock), 0, Running, false, false);
      StartKeeps(fetch);
      fetches := fetches[id := fetch];
      inflight := inflight[a := id];
      now := now.(clock := now.clock + 1);
    }

    lemma StartKeeps(fetch: Fetch)
      requires Valid() && fetch.waiters == 0 && fetch.catalog.startedAt == now.clock
      requires fetch.catalog.generation == now.Generation(fetch.catalog.account)
      requires fetch.catalog.account in now.credentials
      requires fetch.catalog.credentialGeneration <= now.credentials[fetch.catalog.account]
      ensures var more := fetches[now.clock := fetch];
              var next := now.(clock := now.clock + 1);
              now.clock !in fetches && next.Valid() && CacheOk(cache, next) && FetchesOk(more, next)
              && CountsOk(more, requests) && RequestsOk(more, requests, issued)
              && InflightOk(more, inflight[fetch.catalog.account := now.clock])
    {
      hide CountsOk, RequestsOk, Epochs.Fresh;
      NewIsFresh(fetch.catalog);
      AllStayFresh(fetch.catalog.account, fetch.catalog.credentialGeneration);
      NobodyWaitsYet(fetch);
    }

    lemma NewIsFresh(c: Catalog)
      requires now.Valid() && c.startedAt == now.clock && c.generation == now.Generation(c.account)
      requires c.account in now.credentials && c.credentialGeneration <= now.credentials[c.account]
      ensures now.(clock := now.clock + 1).Fresh(c)
    {
    }

    lemma NobodyWaitsYet(fetch: Fetch)
      requires CountsOk(fetches, requests) && RequestsOk(fetches, requests, issued)
      requires fetch.waiters == 0 && now.clock !in fetches
      ensures var more := fetches[now.clock := fetch];
              CountsOk(more, requests) && RequestsOk(more, requests, issued)
    {
      assert forall r | r in requests :: RequestOk(fetches, requests[r]);
      assert WaitingFor(requests, now.clock) == {};
    }

    /** One more request waits for a fetch of the current generation. */
    method Join(id: nat) returns (r: nat)
      requires Valid() && id in fetches
      requires fetches[id].catalog.generation == now.Generation(fetches[id].catalog.account)
      modifies `fetches, `requests, `issued
      ensures Valid() && r !in old(requests)
      ensures var c := old(fetches)[id].catalog;
              requests == old(requests)[r := Request(id, c.account, c.credentialGeneration, now.Since(c.account))]
              && fetches == old(fetches)[id := old(fetches)[id].(waiters := old(fetches)[id].waiters + 1)]
    {
      hide CacheOk, FetchesOk, CountsOk, RequestsOk, InflightOk, Epochs.Fresh, Epochs.Valid;
      r := issued;
      var c := fetches[id].catalog;
      JoinKeeps(id);
      requests := requests[r := Request(id, c.account, c.credentialGeneration, now.Since(c.account))];
      fetches := fetches[id := fetches[id].(waiters := fetches[id].waiters + 1)];
      issued := issued + 1;
    }

    lemma JoinKeeps(id: nat)
      requires Valid() && id in fetches
      requires fetches[id].catalog.generation == now.Generation(fetches[id].catalog.account)
      ensures var c := fetches[id].catalog;
              var q := Request(id, c.account, c.credentialGeneration, now.Since(c.account));
              var more := fetches[id := fetches[id].(waiters := fetches[id].waiters + 1)];
              issued !in requests && FetchesOk(more, now) && CountsOk(more, requests[issued := q])
              && RequestsOk(more, requests[issued := q], issued + 1) && InflightOk(more, inflight)
    {
      var c := fetches[id].catalog;
      var q := Request(id, c.account, c.credentialGeneration, now.Since(c.account));
      WaitingGrows(issued, q);
      assert now.Fresh(c);
      hide WaitingFor, Epochs.Fresh;
    }

    lemma WaitingGrows(r: nat, q: Request)
      requires r !in requests
      ensures |WaitingFor(requests[r := q], q.fetch)| == |WaitingFor(requests, q.fetch)| + 1
      ensures forall i | i != q.fetch :: WaitingFor(requests[r := q], i) == WaitingFor(requests, i)
    {
      assert WaitingFor(requests[r := q], q.fetch) == WaitingFor(requests, q.fetch) + {r};
    }

    /** The source has answered.  A catalog is cached if its account was not invalidated and no
        newer credentials were asked for; it does not matter whether anybody still waits. */
    method Complete(id: nat, ok: bool)
      requires Valid() && id in fetches && fetches[id].outcome.Running?
      modifies `cache, `fetches
      ensures Valid()
      ensures fetches == old(fetches)[id := old(fetches)[id].(outcome := if ok && !closed then Succeeded else Failed)]
      ensures var c := fetches[id].catalog;
              cache == if ok && !closed && c.generation == now.Generation(c.account)
                          && c.account in now.credentials && c.credentialGeneration == now.credentials[c.account]
                       then old(cache)[c.account := c] else old(cache)
    {
      hide CacheOk, FetchesOk, CountsOk, RequestsOk, InflightOk, Epochs.Fresh, Epochs.Valid;
      UpdateKeeps(id, fetches[id].(outcome := if ok && !closed then Succeeded else Failed));
      CachedIsFresh(id);
      if !ok || closed {
        fetches := fetches[id := fetches[id].(outcome := Failed)];
        return;
      }
      var catalog := fetches[id].catalog;
      if IsCurrent(catalog.account, catalog.generation, catalog.credentialGeneration) {
        cache := cache[catalog.account := catalog];
      }
      fetches := fetches[id := fetches[id].(outcome := Succeeded)];
    }

    predicate IsCurrent(a: AccountId, generation: nat, credential: nat)
      reads `now
    {
      now.Generation(a) == generation && a in now.credentials && now.credentials[a] == credential
    }

    predicate Current(c: Catalog)
      reads `now
    {
      IsCurrent(c.account, c.generation, c.credentialGeneration)
    }

    /** A catalog that is current was fetched after the last invalidation, and no request ever
        asked for newer credentials. */
    lemma CurrentIsFresh(id: nat)
      requires Valid() && id in fetches && Current(fetches[id].catalog)
      ensures fetches[id].catalog.startedAt >= now.Since(fetches[id].catalog.account)
      ensures fetches[id].catalog.credentialGeneration == now.credentials[fetches[id].catalog.account]
    {
      assert now.Fresh(fetches[id].catalog);
    }

    lemma UpdateKeeps(id: nat, fetch: Fetch)
      requires Valid() && id in fetches && fetch.catalog == fetches[id].catalog && fetch.waiters == fetches[id].waiters
      ensures var more := fetches[id := fetch];
              FetchesOk(more, now) && CountsOk(more, requests) && RequestsOk(more, requests, issued)
              && InflightOk(more, inflight)
    {
      assert forall r | r in requests :: RequestOk(fetches, requests[r]);
    }

    lemma CachedIsFresh(id: nat)
      requires CacheOk(cache, now) && FetchesOk(fetches, now) && id in fetches
      ensures fetches[id].catalog.generation == now.Generation(fetches[id].catalog.account) ==>
                CacheOk(cache[fetches[id].catalog.account := fetches[id].catalog], now)
    {
    }

    /** The bookkeeping after a fetch: later requests start a new one. */
    method Settle(id: nat)
      requires Valid() && id in fetches && !fetches[id].outcome.Running?
      modifies `fetches, `inflight
      ensures Valid() && fetches == old(fetches)[id := old(fetches)[id].(settled := true)]
      ensures var a := fetches[id].catalog.account;
              inflight == if a in old(inflight) && old(inflight)[a] == id then old(inflight) - {a} else old(inflight)
    {
      hide CacheOk, FetchesOk, CountsOk, RequestsOk, InflightOk, Epochs.Fresh, Epochs.Valid;
      UpdateKeeps(id, fetches[id].(settled := true));
      fetches := fetches[id := fetches[id].(settled := true)];
      WithoutKeeps(id, fetches[id].catalog.account);
      var a := fetches[id].catalog.account;
      if a in inflight && inflight[a] == id { inflight := inflight - {a}; }
    }

    lemma WithoutKeeps(id: nat, a: AccountId)
      requires InflightOk(fetches, inflight)
      ensures InflightOk(fetches, Without(inflight, id, a))
    {
    }

    /** A request stops waiting: with the catalog if its fetch succeeded, with an error if it
        failed, or empty-handed because it was aborted.  The last one to leave a running fetch
        cancels it. */
    method Leave(r: nat) returns (answer: Option<Catalog>)
      requires Valid() && r in requests
      modifies `fetches, `requests, `inflight
      ensures Valid() && requests == old(requests) - {r}
      ensures answer.Some? <==> old(fetches)[old(requests)[r].fetch].outcome.Succeeded?
      ensures answer.Some? ==>
                answer.value.account == old(requests)[r].account
                && answer.value.credentialGeneration == old(requests)[r].credentialGeneration
                && answer.value.startedAt >= old(requests)[r].since
      ensures var id := old(requests)[r].fetch;
              var last := WaitingFor(old(requests), id) == {r} && !old(fetches)[id].settled;
              fetches == old(fetches)[id := old(fetches)[id].(waiters := old(fetches)[id].waiters - 1,
                                                              aborted := old(fetches)[id].aborted || last)]
              && var a := fetches[id].catalog.account;
                 inflight == if last && a in old(inflight) && old(inflight)[a] == id then old(inflight) - {a}
                             else old(inflight)
    {
      hide CacheOk, FetchesOk, CountsOk, RequestsOk, InflightOk, Epochs.Fresh, Epochs.Valid;
      var q := requests[r];
      LeaveKeeps(r);
      var fetch := fetches[q.fetch];
      answer := if fetch.outcome.Succeeded? then Some(fetch.catalog) else None;
      fetches := fetches[q.fetch := fetch.(waiters := fetch.waiters - 1)];
      requests := requests - {r};
      if fetches[q.fetch].waiters == 0 && !fetches[q.fetch].settled {
        UpdateKeeps(q.fetch, fetches[q.fetch].(aborted := true));
        WithoutKeeps(q.fetch, q.account);
        if q.account in inflight && inflight[q.account] == q.fetch { inflight := inflight - {q.account}; }
        WithoutUpdate(q.fetch, fetches[q.fetch].(aborted := true));
        fetches := fetches[q.fetch := fetches[q.fetch].(aborted := true)];
      }
    }

    lemma WithoutUpdate(id: nat, fetch: Fetch)
      requires InflightOk(fetches, inflight) && id in fetches && fetch.catalog == fetches[id].catalog
      ensures InflightOk(fetches[id := fetch], inflight)
    {
    }

    lemma LeaveKeeps(r: nat)
      requires Valid() && r in requests
      ensures var q := requests[r];
              RequestOk(fetches, q)
              && var less := fetches[q.fetch := fetches[q.fetch].(waiters := fetches[q.fetch].waiters - 1)];
                 FetchesOk(less, now) && CountsOk(less, requests - {r})
                 && RequestsOk(less, requests - {r}, issued) && InflightOk(less, inflight)
                 && (less[q.fetch].waiters == 0 <==> WaitingFor(requests, q.fetch) == {r})
    {
      var q := requests[r];
      assert RequestOk(fetches, q);
      WaitingShrinks(r);
      hide WaitingFor, Epochs.Fresh;
    }

    lemma WaitingShrinks(r: nat)
      requires r in requests
      ensures var id := requests[r].fetch;
              |WaitingFor(requests - {r}, id)| == |WaitingFor(requests, id)| - 1
              && (|WaitingFor(requests - {r}, id)| == 0 <==> WaitingFor(requests, id) == {r})
              && forall i | i != id :: WaitingFor(requests - {r}, i) == WaitingFor(requests, i)
    {
      var id := requests[r].fetch;
      assert WaitingFor(requests - {r}, id) == WaitingFor(requests, id) - {r};
    }

    /** From here on nobody is given a catalog that was asked for before. */
    method Invalidate(a: AccountId)
      requires Valid()
      modifies `cache, `now
      ensures Valid() && a !in cache && cache == old(cache) - {a}
      ensures now.Generation(a) == old(now).Generation(a) + 1 && now.Since(a) > old(now).clock
      ensures forall b | b != a :: now.Generation(b) == old(now).Generation(b) && now.Since(b) == old(now).Since(b)
      ensures now.credentials == old(now).credentials && now.clock == old(now).clock + 1
      ensures forall id | id in fetches && fetches[id].catalog.account == a :: !Current(fetches[id].catalog)
    {
      hide CacheOk, FetchesOk, CountsOk, RequestsOk, InflightOk, Epochs.Fresh, Epochs.Valid;
      InvalidateKeeps(a);
      cache := cache - {a};
      now := now.Invalidated(a);
    }

    lemma InvalidateKeeps(a: AccountId)
      requires now.Valid() && CacheOk(cache, now) && FetchesOk(fetches, now)
      ensures var next := now.Invalidated(a);
              next.Valid() && CacheOk(cache - {a}, next) && FetchesOk(fetches, next)
      ensures forall id | id in fetches && fetches[id].catalog.account == a ::
                fetches[id].catalog.generation < now.Invalidated(a).Generation(a)
    {
      AllStayFresh(a, 0);
      assert forall id | id in fetches :: now.Fresh(fetches[id].catalog);
    }

    /** Nothing is cached or answered after this, however late a fetch completes. */
    method Close()
      requires Valid()
      modifies this
      ensures Valid() && closed && cache == map[] && inflight == map[] && requests == old(requests)
      ensures fetches.Keys == old(fetches).Keys && forall id | id in fetches ::
                fetches[id] == old(fetches)[id].(aborted := old(fetches)[id].aborted || !old(fetches)[id].settled)
      ensures now.credentials == old(now).credentials && now.invalidatedAt == old(now).invalidatedAt
      ensures forall a ::
                now.Generation(a) == old(now).Generation(a)
                                     + if a in old(cache) || a in old(now).generations then 1 else 0
    {
      hide CountsOk, RequestsOk, InflightOk, Epochs.Valid;
      closed := true;
      ghost var before := now;
      ClearKeeps();
      now := now.Cleared(cache.Keys);
      cache, inflight := map[], map[];
      NothingInflight();
      fetches := map id | id in fetches :: fetches[id].(aborted := fetches[id].aborted || !fetches[id].settled);
    }

    lemma ClearKeeps()
      requires now.Valid() && FetchesOk(fetches, now) && CountsOk(fetches, requests)
      requires RequestsOk(fetches, requests, issued)
      ensures var next := now.Cleared(cache.Keys);
              var all := map id | id in fetches :: fetches[id].(aborted := fetches[id].aborted || !fetches[id].settled);
              next.Valid() && FetchesOk(all, next) && CountsOk(all, requests) && RequestsOk(all, requests, issued)
    {
      hide Epochs.Fresh;
      AllStayFresh("", 0);
      assert forall id | id in fetches :: now.Fresh(fetches[id].catalog);
      assert forall r | r in requests :: RequestOk(fetches, requests[r]);
    }

    lemma NothingInflight()
      ensures forall all: map<nat, Fetch> :: InflightOk(all, map[])
    {
    }

    /** Any interleaving of requests, answers, departures and invalidations. */
    method Run(schedule: seq<Event>)
      requires Valid()
      modifies this
      ensures Valid()
    {
      hide CacheOk, FetchesOk, CountsOk, RequestsOk, InflightOk, Epochs.Fresh, Epochs.Valid;
      for i := 0 to |schedule|
        invariant Valid()
      {
        match schedule[i]
        case Ask(a, credential) => var _ := Get(a, credential);
        case Complete(id, ok) => if id in fetches && fetches[id].outcome.Running? { Complete(id, ok); }
        case Settle(id) => if id in fetches && !fetches[id].outcome.Running? { Settle(id); }
        case Leave(r) => if r in requests { var _ := Leave(r); }
        case Invalidate(a) => Invalidate(a);
        case Close => Close();
      }
    }
  }

  function Without(inflight: map<AccountId, nat>, id: nat, a: AccountId): map<AccountId, nat> {
    if a in inflight && inflight[a] == id then inflight - {a} else inflight
  }
}
