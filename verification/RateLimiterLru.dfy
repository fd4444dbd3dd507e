/** Whether eviction is least recently used, a rejected request being a use like any other. */
module RateLimitLru {
  import opened RateLimits
  import opened RateLimitRuns
  import opened RateLimitQuota

  predicate Uses(op: Op, token: Token) {
    op.Request? && op.token == token
  }

  ghost predicate NotUsedAfter(ops: seq<Op>, token: Token, t: int) {
    forall j :: 0 <= j < |ops| && Uses(ops[j], token) ==> ops[j].time <= t
  }

  /** The last request of `e` is no later than the last one of `k`. */
  ghost predicate LastUsedNoLater(ops: seq<Op>, e: Token, k: Token) {
    exists i :: 0 <= i < |ops| && Uses(ops[i], k) && NotUsedAfter(ops, e, ops[i].time)
  }

  /** Every evicted token was last requested no later than every token that is kept. */
  ghost predicate LeastRecentlyUsed(ops: seq<Op>, data: map<Token, seq<int>>, out: set<Token>) {
    forall e, k :: e in out && e in data && k in data && k !in out ==> LastUsedNoLater(ops, e, k)
  }

  /** Every cleanup that the code allows after every run it allows evicts least recently used tokens. */
  ghost predicate AlwaysLru(c: Config) {
    forall ops, now, maxTokens, out ::
      NotAfter(ops, now) && AllowedRun(c, ops, maxTokens) && MayEvict(LiveData(Run(c, ops), now, c.window), maxTokens, out)
      ==> LeastRecentlyUsed(ops, LiveData(Run(c, ops), now, c.window), out)
  }

  // ----- Where it is

  /** What the table lists are requests of the run. */
  lemma {:induction false} TimesAreUses(c: Config, ops: seq<Op>, token: Token, x: int)
    requires x in TimesOf(Run(c, ops), token)
    ensures exists i :: 0 <= i < |ops| && Uses(ops[i], token) && ops[i].time == x
  {
    var n := |ops| - 1;
    var times := TimesOf(Run(c, ops[..n]), token);
    LiveMembers(times, ops[n].time, c.window);
    if x in times {
      TimesAreUses(c, ops[..n], token, x);
      var i :| 0 <= i < n && Uses(ops[..n][i], token) && ops[..n][i].time == x;
      assert Uses(ops[i], token);
    } else {
      assert Uses(ops[n], token) && ops[n].time == x;
    }
  }

  lemma NoneAfterNow(ops: seq<Op>, now: int, token: Token)
    requires NotAfter(ops, now)
    ensures NotUsedAfter(ops, token, now)
  {
  }

  /** A window of one clock unit leaves only the tokens requested at this very moment. */
  lemma LiveIsNow(c: Config, ops: seq<Op>, now: int, e: Token, k: Token)
    requires NotAfter(ops, now) && c.window <= 1 && k in LiveData(Run(c, ops), now, c.window)
    ensures LastUsedNoLater(ops, e, k)
  {
    var times := Run(c, ops)[k];
    var x := Live(times, now, c.window)[0];
    assert x in Live(times, now, c.window);
    LiveMembers(times, now, c.window);
    TableNonDecreasing(c, ops, k, now);
    assert TimesOf(Run(c, ops), k) == times && x == now;
    TimesAreUses(c, ops, k, x);
    NoneAfterNow(ops, now, e);
  }

  lemma NothingAdmitted(c: Config, ops: seq<Op>, now: int)
    requires c.limit < 1
    ensures LiveData(Run(c, ops), now, c.window).Keys == {}
  {
    forall k | k in Run(c, ops)
      ensures Live(Run(c, ops)[k], now, c.window) == []
    {
      AtMostLimit(c, ops, k);
      LiveMembers(Run(c, ops)[k], now, c.window);
    }
  }

  // ----- Where it is not

  /** Three requests: `a` at 0, `b` at `s`, and `a` again at `t`. */
  function UsedAgain(a: Token, b: Token, s: int, t: int): seq<Op> {
    [Request(a, 0)] + [Request(b, s)] + [Request(a, t)]
  }

  /** The table then: the first timestamp of `a` is its first request, whether or not the second is admitted. */
  ghost predicate FirstsAre(requests: map<Token, seq<int>>, a: Token, b: Token, s: int, now: int, window: int) {
    && requests.Keys == {a, b}
    && requests[a] != [] && requests[a][0] == 0 && (forall i :: 0 <= i < |requests[a]| ==> now - requests[a][i] < window)
    && requests[b] == [s]
  }

  lemma RequestAgain(c: Config, requests: map<Token, seq<int>>, a: Token, b: Token, s: int, t: int, now: int)
    requires a != b && c.limit >= 1 && 0 <= s <= t <= now < c.window && requests == map[a := [0], b := [s]]
    ensures FirstsAre(Apply(c, requests, Request(a, t)), a, b, s, now, c.window)
  {
    OneLive(0, t, c.window);
    assert TimesOf(requests, a) == [0];
    assert ([0] + [t])[0] == 0;
  }

  lemma UsedAgainTable(c: Config, a: Token, b: Token, s: int, t: int, now: int)
    requires a != b && c.limit >= 1 && 0 <= s <= t <= now < c.window
    ensures FirstsAre(Run(c, UsedAgain(a, b, s, t)), a, b, s, now, c.window)
  {
    var one := [Request(a, 0)];
    RunNext(c, [], Request(a, 0));
    assert [] + one == one;
    FirstRequest(c, map[], a, 0);
    RunNext(c, one, Request(b, s));
    FirstRequest(c, map[a := [0]], b, s);
    RunNext(c, one + [Request(b, s)], Request(a, t));
    RequestAgain(c, map[a := [0], b := [s]], a, b, s, t, now);
  }

  lemma {:induction false} AllLive(times: seq<int>, now: int, window: int)
    requires forall i :: 0 <= i < |times| ==> now - times[i] < window
    ensures Live(times, now, window) == times
  {
    if times != [] {
      AllLive(times[..|times| - 1], now, window);
    }
  }

  lemma FirstMayGo(requests: map<Token, seq<int>>, a: Token, b: Token, s: int, now: int, window: int)
    requires a != b && 0 <= s <= now < window && FirstsAre(requests, a, b, s, now, window)
    ensures MayEvict(LiveData(requests, now, window), 1, {a})
    ensures LiveData(requests, now, window).Keys == {a, b}
  {
    AllLive(requests[a], now, window);
    AllLive(requests[b], now, window);
    OneOfTwo(LiveData(requests, now, window), a, b, s);
  }

  lemma OneOfTwo(data: map<Token, seq<int>>, a: Token, b: Token, s: int)
    requires a != b && s >= 0 && data.Keys == {a, b}
    requires data[a] != [] && data[a][0] == 0 && data[b] == [s]
    ensures MayEvict(data, 1, {a})
  {
    assert |data| == |data.Keys|;
  }

  lemma UsedLater(a: Token, b: Token, s: int, t: int)
    requires a != b && s < t
    ensures !LastUsedNoLater(UsedAgain(a, b, s, t), a, b)
  {
    var ops := UsedAgain(a, b, s, t);
    assert Uses(ops[2], a) && ops[2].time == t;
    forall i | 0 <= i < |ops| && Uses(ops[i], b)
      ensures !NotUsedAfter(ops, a, ops[i].time)
    {
      assert i == 1;
    }
  }

  /** What the run and the cleanup after it show. */
  ghost predicate EvictsLastUsed(c: Config, ops: seq<Op>, now: int, maxTokens: int, out: set<Token>) {
    && NotAfter(ops, now) && AllowedRun(c, ops, maxTokens)
    && MayEvict(LiveData(Run(c, ops), now, c.window), maxTokens, out)
    && !LeastRecentlyUsed(ops, LiveData(Run(c, ops), now, c.window), out)
  }

  lemma UsedAgainInOrder(c: Config, a: Token, b: Token, s: int, t: int, now: int)
    requires 0 <= s <= t <= now
    ensures NotAfter(UsedAgain(a, b, s, t), now) && AllowedRun(c, UsedAgain(a, b, s, t), 1)
  {
    RequestsAreAllowed(c, UsedAgain(a, b, s, t), 1);
  }

  /** With room for one token the cleanup may evict `a`, although `a` was used last. */
  lemma LastUsedIsEvicted(c: Config, a: Token, b: Token, s: int, t: int, now: int)
    requires a != b && c.limit >= 1 && 0 <= s < t <= now < c.window
    ensures EvictsLastUsed(c, UsedAgain(a, b, s, t), now, 1, {a})
  {
    UsedAgainInOrder(c, a, b, s, t, now);
    UsedAgainTable(c, a, b, s, t, now);
    FirstMayGo(Run(c, UsedAgain(a, b, s, t)), a, b, s, now, c.window);
    UsedLater(a, b, s, t);
  }

  /** One such run under a limit of one in ten: `a` at 0, `b` at 1, `a` again, and rejected, at 2, and a cleanup at 3. */
  lemma RejectedUseIsForgotten(a: Token, b: Token)
    requires a != b
    ensures EvictsLastUsed(Config(1, 10), UsedAgain(a, b, 1, 2), 3, 1, {a})
  {
    LastUsedIsEvicted(Config(1, 10), a, b, 1, 2, 3);
  }

  /** Eviction is least recently used exactly when nothing is ever admitted, or nothing stays live beyond its moment. */
  lemma LruIff(c: Config)
    ensures AlwaysLru(c) <==> c.limit < 1 || c.window <= 1
  {
    if c.limit < 1 || c.window <= 1 {
      forall ops, now, maxTokens, out
        | NotAfter(ops, now) && AllowedRun(c, ops, maxTokens) && MayEvict(LiveData(Run(c, ops), now, c.window), maxTokens, out)
        ensures LeastRecentlyUsed(ops, LiveData(Run(c, ops), now, c.window), out)
      {
        if c.limit < 1 {
          NothingAdmitted(c, ops, now);
        } else {
          forall e, k | e in out && k in LiveData(Run(c, ops), now, c.window)
            ensures LastUsedNoLater(ops, e, k)
          {
            LiveIsNow(c, ops, now, e, k);
          }
        }
      }
    } else {
      var ops := UsedAgain("A", "B", 0, 1);
      LastUsedIsEvicted(c, "A", "B", 0, 1, 1);
      assert EvictsLastUsed(c, ops, 1, 1, {"A"});
    }
  }
}
