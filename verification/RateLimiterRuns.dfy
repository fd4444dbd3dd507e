/**
 Whole runs of the rate limiter against its specification: the history of admissions, which
 knows nothing of pruning.
 */
module RateLimitRuns {
  import opened RateLimits

  function Run(c: Config, ops: seq<Op>): map<Token, seq<int>> {
    if ops == [] then map[] else Apply(c, Run(c, ops[..|ops| - 1]), ops[|ops| - 1])
  }

  ghost predicate NotAfter(ops: seq<Op>, now: int) {
    ops == [] || (ops[|ops| - 1].time <= now && Monotone(ops))
  }

  /** The clock never runs backwards. */
  ghost predicate Monotone(ops: seq<Op>) {
    forall i, j :: 0 <= i < j < |ops| ==> ops[i].time <= ops[j].time
  }

  /** The admissions of a token since it was last evicted: the specification's whole state. */
  function History(c: Config, ops: seq<Op>, token: Token): seq<int> {
    if ops == [] then [] else Remember(c, History(c, ops[..|ops| - 1], token), ops[|ops| - 1], token)
  }

  function Remember(c: Config, h: seq<int>, op: Op, token: Token): seq<int> {
    match op
    case Request(k, t) => if k == token && |Live(h, t, c.window)| < c.limit then h + [t] else h
    case Clean(_, out) => if token in out then [] else h
  }

  /** Same live timestamps before an operation, same live timestamps after it. */
  lemma StepAgrees(c: Config, requests: map<Token, seq<int>>, h: seq<int>, op: Op, token: Token, t: int)
    requires op.time <= t
    requires Live(TimesOf(requests, token), op.time, c.window) == Live(h, op.time, c.window)
    requires Live(TimesOf(requests, token), t, c.window) == Live(h, t, c.window)
    ensures Live(TimesOf(Apply(c, requests, op), token), t, c.window) == Live(Remember(c, h, op, token), t, c.window)
  {
    var times := TimesOf(requests, token);
    var after := TimesOf(Apply(c, requests, op), token);
    var live := Live(times, op.time, c.window);
    LiveOfLive(times, op.time, t, c.window);
    LiveAppend(live, op.time, t, c.window);
    LiveAppend(h, op.time, t, c.window);
    match op
    case Request(k, _) =>
      if k == token {
        assert after == if |live| < c.limit then live + [op.time] else live;
      } else {
        assert after == times;
      }
    case Clean(_, out) =>
      assert after == if token in out then [] else live;
  }

  /** At every later moment, the table and the history have the same live timestamps. */
  lemma {:induction false} TableIsHistory(c: Config, ops: seq<Op>, token: Token, t: int)
    requires NotAfter(ops, t)
    ensures Live(TimesOf(Run(c, ops), token), t, c.window) == Live(History(c, ops, token), t, c.window)
  {
    if ops != [] {
      var front, op := ops[..|ops| - 1], ops[|ops| - 1];
      assert NotAfter(front, op.time) && NotAfter(front, t);
      TableIsHistory(c, front, token, op.time);
      TableIsHistory(c, front, token, t);
      StepAgrees(c, Run(c, front), History(c, front, token), op, token, t);
    }
  }

  lemma LiveAppend(s: seq<int>, x: int, t: int, window: int)
    ensures Live(s + [x], t, window) == Live(s, t, window) + (if t - x < window then [x] else [])
    ensures Live([], t, window) == []
  {
    assert (s + [x])[..|s + [x]| - 1] == s;
  }

  /**
   Refinement. Over every run with a non-decreasing clock and cleanups anywhere, a request is
   admitted exactly when fewer than `limit` earlier admissions of its token, counted since the
   token was last evicted, lie within the window.
   */
  lemma DecisionIsSlidingWindow(c: Config, ops: seq<Op>, token: Token, now: int)
    requires NotAfter(ops, now)
    ensures |Live(TimesOf(Run(c, ops), token), now, c.window)| < c.limit
            <==> |Live(History(c, ops, token), now, c.window)| < c.limit
  {
    TableIsHistory(c, ops, token, now);
  }

  /** A cleanup at any moment that does not evict the token changes none of its later decisions. */
  lemma {:induction false} CleanupIsInvisible(c: Config, before: seq<Op>, t: int, out: set<Token>, after: seq<Op>, token: Token, now: int)
    requires token !in out && NotAfter(before + [Clean(t, out)] + after, now)
    ensures Live(TimesOf(Run(c, before + [Clean(t, out)] + after), token), now, c.window)
            == Live(TimesOf(Run(c, before + after), token), now, c.window)
  {
    var with, without := before + [Clean(t, out)] + after, before + after;
    RemoveClean(c, before, t, out, after, token);
    TableIsHistory(c, with, token, now);
    WithoutOne(before, Clean(t, out), after, now);
    TableIsHistory(c, without, token, now);
  }

  lemma WithoutOne(before: seq<Op>, op: Op, after: seq<Op>, now: int)
    requires NotAfter(before + [op] + after, now)
    ensures NotAfter(before + after, now)
  {
    var with, without := before + [op] + after, before + after;
    forall i, j | 0 <= i < j < |without|
      ensures without[i].time <= without[j].time
    {
      StillThere(before, op, after, i);
      StillThere(before, op, after, j);
    }
    if without != [] {
      StillThere(before, op, after, |without| - 1);
    }
  }

  lemma StillThere(before: seq<Op>, op: Op, after: seq<Op>, i: nat)
    requires i < |before + after|
    ensures (before + after)[i] == (before + [op] + after)[if i < |before| then i else i + 1]
  {
  }

  lemma {:induction false} RemoveClean(c: Config, before: seq<Op>, t: int, out: set<Token>, after: seq<Op>, token: Token)
    requires token !in out
    ensures History(c, before + [Clean(t, out)] + after, token) == History(c, before + after, token)
    decreases |after|
  {
    var with, without := before + [Clean(t, out)] + after, before + after;
    if after == [] {
      assert with == before + [Clean(t, out)] && without == before;
      assert with[..|with| - 1] == before;
    } else {
      var n := |after| - 1;
      RemoveClean(c, before, t, out, after[..n], token);
      assert with[..|with| - 1] == before + [Clean(t, out)] + after[..n];
      assert without[..|without| - 1] == before + after[..n];
    }
  }

  // ----- Spacing

  ghost predicate Spaced(c: Config, h: seq<int>) {
    && (forall i, j :: 0 <= i < j < |h| ==> h[i] <= h[j])
    && (c.limit >= 1 ==> forall i, j :: 0 <= i && j == i + c.limit < |h| ==> h[j] - h[i] >= c.window)
    && (c.limit < 1 ==> h == [])
  }

  /** In time order, the live timestamps are the newest ones. */
  lemma {:induction false} LiveSuffix(h: seq<int>, now: int, window: int, i: nat)
    requires i < |h| && now - h[i] < window
    requires forall a, b :: 0 <= a < b < |h| ==> h[a] <= h[b]
    ensures |Live(h, now, window)| >= |h| - i
  {
    var n := |h| - 1;
    if i < n {
      LiveSuffix(h[..n], now, window, i);
    }
  }

  /** Admissions i and i + limit of a token are at least one window apart. */
  lemma {:induction false} AdmissionsAreSpaced(c: Config, ops: seq<Op>, token: Token)
    requires Monotone(ops)
    ensures Spaced(c, History(c, ops, token))
    ensures ops != [] ==> forall x :: x in History(c, ops, token) ==> x <= ops[|ops| - 1].time
  {
    if ops != [] {
      var front, op := ops[..|ops| - 1], ops[|ops| - 1];
      AdmissionsAreSpaced(c, front, token);
      var h := History(c, front, token);
      assert forall x :: x in h ==> front != [] && x <= front[|front| - 1].time <= op.time;
      if op.Request? && op.token == token && |Live(h, op.time, c.window)| < c.limit {
        SpacedAppend(c, h, op.time);
      }
    }
  }

  lemma SpacedAppend(c: Config, h: seq<int>, t: int)
    requires Spaced(c, h) && |Live(h, t, c.window)| < c.limit && forall x :: x in h ==> x <= t
    ensures Spaced(c, h + [t])
  {
    var g := h + [t];
    var i := |h| - c.limit;
    if i >= 0 && t - h[i] < c.window {
      LiveSuffix(h, t, c.window, i);
    }
    forall a, b | 0 <= a < b < |g|
      ensures g[a] <= g[b]
    {
      if b == |h| {
        assert h[a] in h;
      }
    }
    forall a, b | 0 <= a && b == a + c.limit < |g|
      ensures g[b] - g[a] >= c.window
    {
      if b < |h| {
        assert h[b] - h[a] >= c.window;
      }
    }
  }

  // ----- Whom a cleanup evicts

  predicate NonDecreasing(times: seq<int>) {
    forall i, j :: 0 <= i < j < |times| ==> times[i] <= times[j]
  }

  predicate NoneAfter(times: seq<int>, t: int) {
    forall x :: x in times ==> x <= t
  }

  lemma NonDecreasingAppend(times: seq<int>, t: int)
    requires NonDecreasing(times) && NoneAfter(times, t)
    ensures NonDecreasing(times + [t]) && NoneAfter(times + [t], t)
  {
    forall i, j | 0 <= i < j < |times + [t]|
      ensures (times + [t])[i] <= (times + [t])[j]
    {
      if j == |times| {
        assert times[i] in times;
      }
    }
  }

  lemma {:induction false} LiveNonDecreasing(times: seq<int>, now: int, window: int)
    requires NonDecreasing(times)
    ensures NonDecreasing(Live(times, now, window))
  {
    if times != [] {
      var n := |times| - 1;
      LiveNonDecreasing(times[..n], now, window);
      LiveMembers(times[..n], now, window);
      assert NoneAfter(Live(times[..n], now, window), times[n]);
      NonDecreasingAppend(Live(times[..n], now, window), times[n]);
    }
  }

  lemma StepNonDecreasing(c: Config, requests: map<Token, seq<int>>, op: Op, token: Token)
    requires NonDecreasing(TimesOf(requests, token)) && NoneAfter(TimesOf(requests, token), op.time)
    ensures NonDecreasing(TimesOf(Apply(c, requests, op), token)) && NoneAfter(TimesOf(Apply(c, requests, op), token), op.time)
  {
    var times := TimesOf(requests, token);
    var live := Live(times, op.time, c.window);
    LiveNonDecreasing(times, op.time, c.window);
    LiveMembers(times, op.time, c.window);
    assert NoneAfter(live, op.time);
    NonDecreasingAppend(live, op.time);
    assert TimesOf(Apply(c, requests, op), token) in {times, live, live + [op.time], []};
  }

  lemma {:induction false} TableNonDecreasing(c: Config, ops: seq<Op>, token: Token, t: int)
    requires NotAfter(ops, t)
    ensures NonDecreasing(TimesOf(Run(c, ops), token)) && NoneAfter(TimesOf(Run(c, ops), token), t)
  {
    if ops != [] {
      var front, op := ops[..|ops| - 1], ops[|ops| - 1];
      assert NotAfter(front, op.time);
      TableNonDecreasing(c, front, token, op.time);
      StepNonDecreasing(c, Run(c, front), op, token);
    }
  }

  /** Over a non-decreasing clock, an evicted token's oldest live timestamp is no later than any of a kept one. */
  lemma EvictsOldestLive(c: Config, ops: seq<Op>, now: int, maxTokens: int, out: set<Token>, e: Token, k: Token)
    requires NotAfter(ops, now)
    requires MayEvict(LiveData(Run(c, ops), now, c.window), maxTokens, out)
    requires e in out && k in LiveData(Run(c, ops), now, c.window) && k !in out
    ensures var data := LiveData(Run(c, ops), now, c.window);
            exists x :: x in data[e] && NoneBefore(data[e], x) && NoneBefore(data[k], x)
  {
    var data := LiveData(Run(c, ops), now, c.window);
    TableNonDecreasing(c, ops, e, now);
    TableNonDecreasing(c, ops, k, now);
    LiveNonDecreasing(Run(c, ops)[e], now, c.window);
    LiveNonDecreasing(Run(c, ops)[k], now, c.window);
    assert data[e][0] in data[e] && NoneBefore(data[e], data[e][0]) && NoneBefore(data[k], data[e][0]);
  }

  predicate NoneBefore(times: seq<int>, t: int) {
    forall x :: x in times ==> t <= x
  }

  // ----- Is eviction least recently admitted?

  /** Evicted tokens were last admitted, as far as their admissions are live, no later than the kept ones. */
  ghost predicate LeastRecentlyAdmitted(data: map<Token, seq<int>>, out: set<Token>) {
    forall e, k :: e in out && k in data && k !in out && e in data && data[e] != [] && data[k] != [] ==>
      data[e][|data[e]| - 1] <= data[k][|data[k]| - 1]
  }

  ghost predicate AdmissionOrderCase(c: Config, ops: seq<Op>, now: int, maxTokens: int, out: set<Token>) {
    NotAfter(ops, now) && MayEvict(LiveData(Run(c, ops), now, c.window), maxTokens, out)
    ==> LeastRecentlyAdmitted(LiveData(Run(c, ops), now, c.window), out)
  }

  /** Every cleanup of every run evicts least recently admitted tokens. */
  ghost predicate AlwaysByAdmission(limit: int) {
    forall window: int, ops, now, maxTokens, out :: AdmissionOrderCase(Config(limit, window), ops, now, maxTokens, out)
  }

  lemma {:induction false} AtMostLimit(c: Config, ops: seq<Op>, token: Token)
    ensures |TimesOf(Run(c, ops), token)| <= if c.limit > 0 then c.limit else 0
  {
    if ops != [] {
      var front, op := ops[..|ops| - 1], ops[|ops| - 1];
      AtMostLimit(c, front, token);
      LiveMembers(TimesOf(Run(c, front), token), op.time, c.window);
    }
  }

  /** Three requests of two tokens: a, then b, then a again. */
  function Aba(a: Token, b: Token): seq<Op> {
    [Request(a, 0)] + [Request(b, 1)] + [Request(a, 2)]
  }

  lemma RunNext(c: Config, ops: seq<Op>, op: Op)
    ensures Run(c, ops + [op]) == Apply(c, Run(c, ops), op)
  {
    assert (ops + [op])[..|ops|] == ops;
  }

  lemma FirstRequest(c: Config, requests: map<Token, seq<int>>, token: Token, t: int)
    requires token !in requests && c.limit >= 1
    ensures Apply(c, requests, Request(token, t)) == requests[token := [t]]
  {
    assert [] + [t] == [t];
  }

  lemma SecondRequest(c: Config, requests: map<Token, seq<int>>, token: Token, t: int, u: int)
    requires token in requests && requests[token] == [t] && c.limit >= 2 && u - t < c.window
    ensures Apply(c, requests, Request(token, u)) == requests[token := [t, u]]
  {
    LiveAppend([], t, u, c.window);
    assert [] + [t] == [t];
    assert TimesOf(requests, token) == [t] && Live([t], u, c.window) == [t];
    assert [t] + [u] == [t, u];
  }

  lemma AbaTable(limit: int, a: Token, b: Token)
    requires limit >= 2 && a != b
    ensures Run(Config(limit, 10), Aba(a, b)) == map[a := [0, 2], b := [1]]
  {
    var c := Config(limit, 10);
    RunNext(c, [], Request(a, 0));
    assert [] + [Request(a, 0)] == [Request(a, 0)];
    FirstRequest(c, map[], a, 0);
    RunNext(c, [Request(a, 0)], Request(b, 1));
    FirstRequest(c, map[a := [0]], b, 1);
    RunNext(c, [Request(a, 0)] + [Request(b, 1)], Request(a, 2));
    SecondRequest(c, map[a := [0], b := [1]], a, 0, 2);
  }

  lemma AbaLive(a: Token, b: Token)
    requires a != b
    ensures LiveData(map[a := [0, 2], b := [1]], 3, 10) == map[a := [0, 2], b := [1]]
  {
    LiveAppend([], 0, 3, 10);
    assert [] + [0] == [0];
    LiveAppend([0], 2, 3, 10);
    assert [0] + [2] == [0, 2];
    LiveAppend([], 1, 3, 10);
    assert [] + [1] == [1];
    assert Live([0, 2], 3, 10) == [0, 2] && Live([1], 3, 10) == [1];
  }

  lemma AbaInOrder(a: Token, b: Token)
    ensures NotAfter(Aba(a, b), 3)
  {
  }

  lemma AbaAtCleanup(limit: int, a: Token, b: Token, data: map<Token, seq<int>>)
    requires limit >= 2 && a != b && data == map[a := [0, 2], b := [1]]
    ensures LiveData(Run(Config(limit, 10), Aba(a, b)), 3, 10) == data
  {
    AbaTable(limit, a, b);
    AbaLive(a, b);
  }

  /** A cleanup with room for one token may only evict `a`, the token that was admitted last. */
  lemma RecentTokenEvicted(limit: int, a: Token, b: Token)
    requires limit >= 2 && a != b
    ensures !AdmissionOrderCase(Config(limit, 10), Aba(a, b), 3, 1, {a})
  {
    RecentTokenGoes(Config(limit, 10), Aba(a, b), a, b, map[a := [0, 2], b := [1]]);
  }

  lemma RecentTokenGoes(c: Config, ops: seq<Op>, a: Token, b: Token, data: map<Token, seq<int>>)
    requires c == Config(c.limit, 10) && c.limit >= 2 && ops == Aba(a, b) && a != b
    requires data == map[a := [0, 2], b := [1]]
    ensures !AdmissionOrderCase(c, ops, 3, 1, {a})
  {
    AbaInOrder(a, b);
    AbaAtCleanup(c.limit, a, b, data);
    OldestGoes(data, a, b);
    NotByAdmission(c, ops, 3, 1, {a}, data);
  }

  lemma NotByAdmission(c: Config, ops: seq<Op>, now: int, maxTokens: int, out: set<Token>, data: map<Token, seq<int>>)
    requires NotAfter(ops, now) && LiveData(Run(c, ops), now, c.window) == data
    requires MayEvict(data, maxTokens, out) && !LeastRecentlyAdmitted(data, out)
    ensures !AdmissionOrderCase(c, ops, now, maxTokens, out)
  {
  }

  lemma OldestGoes(data: map<Token, seq<int>>, a: Token, b: Token)
    requires a != b && data == map[a := [0, 2], b := [1]]
    ensures MayEvict(data, 1, {a}) && !LeastRecentlyAdmitted(data, {a})
  {
    assert data.Keys == {a, b} && |data| == |data.Keys|;
    assert data[a] == [0, 2] && data[b] == [1] && a in {a} && b !in {a};
  }

  /** Eviction is least recently admitted for all runs exactly when the limit is at most one. */
  lemma ByAdmissionUpToOne(limit: int)
    ensures AlwaysByAdmission(limit) <==> limit <= 1
  {
    if limit >= 2 {
      RecentTokenEvicted(limit, "A", "B");
    } else {
      forall window: int, ops, now, maxTokens, out
        ensures AdmissionOrderCase(Config(limit, window), ops, now, maxTokens, out)
      {
        var c := Config(limit, window);
        var data := LiveData(Run(c, ops), now, window);
        forall k | k in data
          ensures |data[k]| == 1
        {
          AtMostLimit(c, ops, k);
          LiveMembers(Run(c, ops)[k], now, window);
        }
      }
    }
  }
}
