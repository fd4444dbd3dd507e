/**
 The quota over all admissions ever made. Eviction forgets a token's admissions, so the plain
 sliding window holds for the tokens that are never evicted, and for all of them exactly when
 no run can lead to an eviction that matters.
 */
module RateLimitQuota {
  import Ids
  import opened RateLimits
  import opened RateLimitRuns

  /** Every admission of a token in a run, read off the table's own decisions; nothing resets it. */
  function AllAdmitted(c: Config, ops: seq<Op>, token: Token): seq<int> {
    if ops == [] then []
    else
      var front, op := ops[..|ops| - 1], ops[|ops| - 1];
      var before := AllAdmitted(c, front, token);
      if op.Request? && op.token == token && |Live(TimesOf(Run(c, front), token), op.time, c.window)| < c.limit
      then before + [op.time]
      else before
  }

  /** Every cleanup of the run evicts what the code's sort allows. */
  ghost predicate AllowedRun(c: Config, ops: seq<Op>, maxTokens: int) {
    ops == [] || (
      var front, op := ops[..|ops| - 1], ops[|ops| - 1];
      && AllowedRun(c, front, maxTokens)
      && (op.Clean? ==> MayEvict(LiveData(Run(c, front), op.time, c.window), maxTokens, op.out)))
  }

  /** No cleanup of the run evicts the token. */
  ghost predicate Spares(ops: seq<Op>, token: Token) {
    forall i :: 0 <= i < |ops| && ops[i].Clean? ==> token !in ops[i].out
  }

  // ----- Tokens that are never evicted

  lemma MonotoneFront(ops: seq<Op>)
    requires Monotone(ops) && ops != []
    ensures NotAfter(ops[..|ops| - 1], ops[|ops| - 1].time)
  {
  }

  /** Of a token that no cleanup evicts, the history is the list of all its admissions. */
  lemma {:induction false} SparedHistory(c: Config, ops: seq<Op>, token: Token)
    requires Monotone(ops) && Spares(ops, token)
    ensures AllAdmitted(c, ops, token) == History(c, ops, token)
  {
    if ops != [] {
      var n := |ops| - 1;
      MonotoneFront(ops);
      assert Spares(ops[..n], token);
      SparedHistory(c, ops[..n], token);
      TableIsHistory(c, ops[..n], token, ops[n].time);
    }
  }

  /** Its requests are admitted exactly while fewer than `limit` of all its admissions lie within the window. */
  lemma SparedWindow(c: Config, ops: seq<Op>, token: Token, now: int)
    requires NotAfter(ops, now) && Spares(ops, token)
    ensures |Live(TimesOf(Run(c, ops), token), now, c.window)| < c.limit
            <==> |Live(AllAdmitted(c, ops, token), now, c.window)| < c.limit
  {
    assert Monotone(ops);
    SparedHistory(c, ops, token);
    DecisionIsSlidingWindow(c, ops, token, now);
  }

  /** All its admissions are spaced. */
  lemma SparedSpacing(c: Config, ops: seq<Op>, token: Token)
    requires Monotone(ops) && Spares(ops, token)
    ensures Spaced(c, AllAdmitted(c, ops, token))
  {
    SparedHistory(c, ops, token);
    AdmissionsAreSpaced(c, ops, token);
  }

  // ----- When nothing is evicted at all

  ghost predicate TokensIn(ops: seq<Op>, u: set<Token>) {
    forall i :: 0 <= i < |ops| && ops[i].Request? ==> ops[i].token in u
  }

  lemma {:induction false} KeysAreRequested(c: Config, ops: seq<Op>, u: set<Token>)
    requires TokensIn(ops, u)
    ensures Run(c, ops).Keys <= u
  {
    if ops != [] {
      var n := |ops| - 1;
      assert TokensIn(ops[..n], u);
      KeysAreRequested(c, ops[..n], u);
    }
  }

  lemma SmallTableKeepsAll(data: map<Token, seq<int>>, maxTokens: int, u: set<Token>, out: set<Token>)
    requires data.Keys <= u && (|u| <= maxTokens || u == {}) && MayEvict(data, maxTokens, out)
    ensures out == {}
  {
    Ids.SubsetCard(data.Keys, u);
    assert |data| == |data.Keys|;
  }

  lemma {:induction false} FewTokensAreSpared(c: Config, ops: seq<Op>, maxTokens: int, u: set<Token>, token: Token)
    requires TokensIn(ops, u) && AllowedRun(c, ops, maxTokens) && (|u| <= maxTokens || u == {})
    ensures Spares(ops, token)
  {
    if ops != [] {
      var n := |ops| - 1;
      assert TokensIn(ops[..n], u);
      FewTokensAreSpared(c, ops[..n], maxTokens, u, token);
      if ops[n].Clean? {
        KeysAreRequested(c, ops[..n], u);
        SmallTableKeepsAll(LiveData(Run(c, ops[..n]), ops[n].time, c.window), maxTokens, u, ops[n].out);
      }
      SparesNext(ops, token);
    }
  }

  lemma SparesNext(ops: seq<Op>, token: Token)
    requires ops != [] && Spares(ops[..|ops| - 1], token)
    requires ops[|ops| - 1].Clean? ==> token !in ops[|ops| - 1].out
    ensures Spares(ops, token)
  {
    var n := |ops| - 1;
    forall i | 0 <= i < |ops| && ops[i].Clean?
      ensures token !in ops[i].out
    {
      if i < n {
        assert ops[..n][i] == ops[i];
      }
    }
  }

  // ----- Limits and windows that hold whatever is evicted

  lemma {:induction false} AdmittedInOrder(c: Config, ops: seq<Op>, token: Token)
    requires Monotone(ops)
    ensures NonDecreasing(AllAdmitted(c, ops, token))
    ensures ops != [] ==> NoneAfter(AllAdmitted(c, ops, token), ops[|ops| - 1].time)
    ensures c.limit < 1 ==> AllAdmitted(c, ops, token) == []
  {
    if ops != [] {
      var n := |ops| - 1;
      var before := AllAdmitted(c, ops[..n], token);
      AdmittedInOrder(c, ops[..n], token);
      assert n > 0 ==> ops[..n][n - 1].time <= ops[n].time;
      assert NoneAfter(before, ops[n].time);
      NonDecreasingAppend(before, ops[n].time);
    }
  }

  lemma {:induction false} NothingLive(times: seq<int>, now: int, window: int)
    requires NoneAfter(times, now) && window <= 0
    ensures Live(times, now, window) == []
  {
    if times != [] {
      var n := |times| - 1;
      assert times[n] in times;
      assert forall x :: x in times[..n] ==> x in times;
      NothingLive(times[..n], now, window);
    }
  }

  lemma DegenerateSpacing(c: Config, ops: seq<Op>, token: Token)
    requires Monotone(ops) && (c.limit < 1 || c.window <= 0)
    ensures Spaced(c, AllAdmitted(c, ops, token))
  {
    AdmittedInOrder(c, ops, token);
  }

  lemma DegenerateWindow(c: Config, ops: seq<Op>, token: Token, now: int)
    requires NotAfter(ops, now) && (c.limit < 1 || c.window <= 0)
    ensures |Live(TimesOf(Run(c, ops), token), now, c.window)| < c.limit
            <==> |Live(AllAdmitted(c, ops, token), now, c.window)| < c.limit
  {
    if c.limit >= 1 {
      AdmittedInOrder(c, ops, token);
      TableNonDecreasing(c, ops, token, now);
      NothingLive(TimesOf(Run(c, ops), token), now, c.window);
      NothingLive(AllAdmitted(c, ops, token), now, c.window);
    }
  }

  // ----- A run that exceeds the quota

  /** Requests only, all at one clock reading. */
  predicate AtZero(ops: seq<Op>) {
    forall i :: 0 <= i < |ops| ==> ops[i].Request? && ops[i].time == 0
  }

  function Requested(ops: seq<Op>): set<Token>
    requires AtZero(ops)
  {
    set i | 0 <= i < |ops| :: ops[i].token
  }

  function RequestsOf(ops: seq<Op>, token: Token): nat
    requires AtZero(ops)
  {
    if ops == [] then 0 else RequestsOf(ops[..|ops| - 1], token) + (if ops[|ops| - 1].token == token then 1 else 0)
  }

  predicate AllZero(times: seq<int>) {
    forall i :: 0 <= i < |times| ==> times[i] == 0
  }

  lemma {:induction false} ZerosStayLive(times: seq<int>, window: int)
    requires AllZero(times) && window >= 1
    ensures Live(times, 0, window) == times
  {
    if times != [] {
      ZerosStayLive(times[..|times| - 1], window);
    }
  }

  /** Such a run fills the table with the admissions of every token, up to the limit. */
  lemma {:induction false} AtZeroRun(c: Config, ops: seq<Op>, token: Token)
    requires AtZero(ops) && c.limit >= 1 && c.window >= 1
    ensures TimesOf(Run(c, ops), token) == AllAdmitted(c, ops, token) && AllZero(AllAdmitted(c, ops, token))
    ensures var n := RequestsOf(ops, token);
            |AllAdmitted(c, ops, token)| == if n < c.limit then n else c.limit
    ensures token in Run(c, ops) <==> RequestsOf(ops, token) > 0
  {
    if ops != [] {
      var n := |ops| - 1;
      AtZeroRun(c, ops[..n], token);
      ZerosStayLive(AllAdmitted(c, ops[..n], token), c.window);
    }
  }

  lemma {:induction false} RequestedIff(ops: seq<Op>, token: Token)
    requires AtZero(ops)
    ensures token in Requested(ops) <==> RequestsOf(ops, token) > 0
  {
    if ops != [] {
      var n := |ops| - 1;
      RequestedIff(ops[..n], token);
      assert token in Requested(ops[..n]) ==> token in Requested(ops) by {
        if token in Requested(ops[..n]) {
          var i :| 0 <= i < n && ops[..n][i].token == token;
          assert ops[i].token == token;
        }
      }
      assert ops[n].token in Requested(ops);
      if token in Requested(ops) && token != ops[n].token {
        var i :| 0 <= i < |ops| && ops[i].token == token;
        assert ops[..n][i].token == token;
      }
    }
  }

  /** At that moment everything is live: the cleanup sees the whole table, all timestamps equal. */
  lemma AtZeroData(c: Config, ops: seq<Op>, t: Token)
    requires AtZero(ops) && c.limit >= 1 && c.window >= 1 && t in Requested(ops)
    ensures var data := LiveData(Run(c, ops), 0, c.window);
            t in data && data[t] != [] && data[t][0] == 0
  {
    AtZeroRun(c, ops, t);
    RequestedIff(ops, t);
    ZerosStayLive(TimesOf(Run(c, ops), t), c.window);
  }

  lemma AtZeroKeys(c: Config, ops: seq<Op>)
    requires AtZero(ops) && c.limit >= 1 && c.window >= 1
    ensures LiveData(Run(c, ops), 0, c.window).Keys == Requested(ops)
  {
    var data := LiveData(Run(c, ops), 0, c.window);
    forall t
      ensures t in data <==> t in Requested(ops)
    {
      AtZeroRun(c, ops, t);
      RequestedIff(ops, t);
      ZerosStayLive(TimesOf(Run(c, ops), t), c.window);
    }
  }

  /** With one token too many, a cleanup may evict any one of them. */
  lemma MayEvictAny(c: Config, ops: seq<Op>, maxTokens: int, a: Token)
    requires AtZero(ops) && c.limit >= 1 && c.window >= 1 && a in Requested(ops)
    requires |Requested(ops)| == if maxTokens < 0 then 1 else maxTokens + 1
    ensures MayEvict(LiveData(Run(c, ops), 0, c.window), maxTokens, {a})
  {
    var data := LiveData(Run(c, ops), 0, c.window);
    AtZeroKeys(c, ops);
    forall t | t in data
      ensures data[t] != [] && data[t][0] == 0
    {
      AtZeroData(c, ops, t);
    }
    AnyMayGo(data, maxTokens, a);
  }

  lemma AnyMayGo(data: map<Token, seq<int>>, maxTokens: int, a: Token)
    requires a in data && |data.Keys| == if maxTokens < 0 then 1 else maxTokens + 1
    requires forall t :: t in data ==> data[t] != [] && data[t][0] == 0
    ensures MayEvict(data, maxTokens, {a})
  {
    assert |data| == |data.Keys|;
  }

  /** `limit` requests of `a` and one of every token of `others`. */
  function FillUp(a: Token, limit: nat, others: seq<Token>): seq<Op> {
    seq(limit, _ => Request(a, 0)) + seq(|others|, i requires 0 <= i < |others| => Request(others[i], 0))
  }

  lemma FillUpFacts(a: Token, limit: nat, others: seq<Token>, u: set<Token>)
    requires limit >= 1 && a in u && Ids.NoDup(others) && Ids.Elems(others) <= u - {a}
    ensures AtZero(FillUp(a, limit, others)) && TokensIn(FillUp(a, limit, others), u)
    ensures Requested(FillUp(a, limit, others)) == {a} + Ids.Elems(others)
    ensures |Requested(FillUp(a, limit, others))| == 1 + |others|
  {
    var ops := FillUp(a, limit, others);
    assert forall i :: 0 <= i < |others| ==> others[i] in Ids.Elems(others);
    forall t | t in {a} + Ids.Elems(others)
      ensures t in Requested(ops)
    {
      if t == a {
        assert ops[0].token == a;
      } else {
        var i :| 0 <= i < |others| && others[i] == t;
        assert ops[limit + i].token == t;
      }
    }
    Ids.NoDupCard(others);
  }

  lemma {:induction false} FillUpRequests(a: Token, ops: seq<Op>, limit: nat)
    requires AtZero(ops) && limit <= |ops| && forall i :: 0 <= i < limit ==> ops[i].token == a
    ensures RequestsOf(ops, a) >= limit
  {
    if limit > 0 {
      var n := |ops| - 1;
      FillUpRequests(a, ops[..n], if limit == |ops| then limit - 1 else limit);
    }
  }

  /** What the run shows: allowed, in order, of tokens of `u`, and `a` is admitted with its quota used up. */
  ghost predicate Exceeds(c: Config, maxTokens: int, u: set<Token>, ops: seq<Op>, a: Token) {
    && NotAfter(ops, 0) && TokensIn(ops, u) && AllowedRun(c, ops, maxTokens) && a in u
    && TimesOf(Run(c, ops), a) == [] && |AllAdmitted(c, ops, a)| == c.limit && AllZero(AllAdmitted(c, ops, a))
  }

  predicate OnlyRequests(ops: seq<Op>) {
    forall i :: 0 <= i < |ops| ==> ops[i].Request?
  }

  lemma {:induction false} RequestsAreAllowed(c: Config, ops: seq<Op>, maxTokens: int)
    requires OnlyRequests(ops)
    ensures AllowedRun(c, ops, maxTokens)
  {
    if ops != [] {
      RequestsAreAllowed(c, ops[..|ops| - 1], maxTokens);
    }
  }

  lemma EvictionForgets(c: Config, maxTokens: int, u: set<Token>, ops: seq<Op>, a: Token)
    requires AtZero(ops) && TokensIn(ops, u) && c.limit >= 1 && c.window >= 1 && a in u && RequestsOf(ops, a) >= c.limit
    requires MayEvict(LiveData(Run(c, ops), 0, c.window), maxTokens, {a})
    ensures Exceeds(c, maxTokens, u, ops + [Clean(0, {a})], a)
  {
    RequestsAreAllowed(c, ops, maxTokens);
    AtZeroRun(c, ops, a);
    AllowedNext(c, ops, Clean(0, {a}), maxTokens);
    CleanNext(c, ops, 0, {a}, a);
    CleanAtEnd(ops, {a}, u);
  }

  lemma AllowedNext(c: Config, ops: seq<Op>, op: Op, maxTokens: int)
    requires AllowedRun(c, ops, maxTokens)
    requires op.Clean? ==> MayEvict(LiveData(Run(c, ops), op.time, c.window), maxTokens, op.out)
    ensures AllowedRun(c, ops + [op], maxTokens)
  {
    assert (ops + [op])[..|ops|] == ops;
  }

  lemma CleanNext(c: Config, ops: seq<Op>, t: int, out: set<Token>, token: Token)
    requires token in out
    ensures TimesOf(Run(c, ops + [Clean(t, out)]), token) == []
    ensures AllAdmitted(c, ops + [Clean(t, out)], token) == AllAdmitted(c, ops, token)
  {
    assert (ops + [Clean(t, out)])[..|ops|] == ops;
  }

  lemma CleanAtEnd(ops: seq<Op>, out: set<Token>, u: set<Token>)
    requires AtZero(ops) && TokensIn(ops, u)
    ensures NotAfter(ops + [Clean(0, out)], 0) && TokensIn(ops + [Clean(0, out)], u)
  {
    assert forall i :: 0 <= i < |ops| ==> (ops + [Clean(0, out)])[i] == ops[i];
  }

  /** With more tokens than the table may keep, some token can be made to exceed its quota. */
  lemma QuotaExceeded(c: Config, maxTokens: int, u: set<Token>) returns (ops: seq<Op>, a: Token)
    requires |u| > maxTokens && u != {} && "" !in u && c.limit >= 1 && c.window >= 1
    ensures Exceeds(c, maxTokens, u, ops, a) && a != ""
  {
    a :| a in u;
    var k := if maxTokens < 0 then 0 else maxTokens;
    assert |u - {a}| == |u| - 1;
    var others := PickTokens(u - {a}, k);
    var filled := FillUp(a, c.limit, others);
    FillUpFacts(a, c.limit, others, u);
    FillUpRequests(a, filled, c.limit);
    MayEvictAny(c, filled, maxTokens, a);
    EvictionForgets(c, maxTokens, u, filled, a);
    ops := filled + [Clean(0, {a})];
  }

  lemma {:induction false} PickTokens(u: set<Token>, k: nat) returns (s: seq<Token>)
    requires k <= |u|
    ensures Ids.NoDup(s) && Ids.Elems(s) <= u && |s| == k
    decreases k
  {
    if k == 0 {
      s := [];
    } else {
      var t :| t in u;
      assert |u - {t}| == |u| - 1;
      var r := PickTokens(u - {t}, k - 1);
      s := [t] + r;
      assert forall i :: 0 <= i < |r| ==> r[i] in Ids.Elems(r);
    }
  }

  /** One more request at the same moment is admitted although it is no window away. */
  lemma OneTooMany(c: Config, maxTokens: int, u: set<Token>, ops: seq<Op>, a: Token)
    requires Exceeds(c, maxTokens, u, ops, a) && c.limit >= 1 && c.window >= 1
    ensures var more := ops + [Request(a, 0)];
            Monotone(more) && TokensIn(more, u) && AllowedRun(c, more, maxTokens) && !Spaced(c, AllAdmitted(c, more, a))
  {
    var more := ops + [Request(a, 0)];
    AllowedNext(c, ops, Request(a, 0), maxTokens);
    AdmittedNext(c, ops, Request(a, 0), a);
    assert forall i :: 0 <= i < |ops| ==> more[i] == ops[i];
    NotSpaced(c, AllAdmitted(c, ops, a));
  }

  lemma NotSpaced(c: Config, h: seq<int>)
    requires c.limit >= 1 && c.window >= 1 && |h| == c.limit && AllZero(h)
    ensures !Spaced(c, h + [0])
  {
    var g := h + [0];
    assert g[c.limit] - g[0] == 0;
  }

  // ----- The exact conditions

  /** The tokens that reach the table: a request without a token is turned away before. */
  function Usable(u: set<Token>): set<Token> {
    u - {""}
  }

  /** In every allowed run of tokens of `u`, all admissions of every token are spaced. */
  ghost predicate AlwaysSpaced(c: Config, maxTokens: int, u: set<Token>) {
    forall ops, token :: Monotone(ops) && TokensIn(ops, Usable(u)) && AllowedRun(c, ops, maxTokens) ==> Spaced(c, AllAdmitted(c, ops, token))
  }

  /** In every allowed run of tokens of `u`, requests are decided by all admissions within the window. */
  ghost predicate AlwaysSlidingWindow(c: Config, maxTokens: int, u: set<Token>) {
    forall ops, token, now :: NotAfter(ops, now) && TokensIn(ops, Usable(u)) && AllowedRun(c, ops, maxTokens) ==>
      (|Live(TimesOf(Run(c, ops), token), now, c.window)| < c.limit <==> |Live(AllAdmitted(c, ops, token), now, c.window)| < c.limit)
  }

  /** The table has room for all tokens, or the quota is degenerate. */
  predicate QuotaIsSafe(c: Config, maxTokens: int, u: set<Token>) {
    |Usable(u)| <= maxTokens || Usable(u) == {} || c.limit < 1 || c.window <= 0
  }

  /** Admissions i and i + limit are a window apart in all runs exactly when no eviction can matter. */
  lemma SpacedIff(c: Config, maxTokens: int, u: set<Token>)
    ensures AlwaysSpaced(c, maxTokens, u) <==> QuotaIsSafe(c, maxTokens, u)
  {
    if QuotaIsSafe(c, maxTokens, u) {
      forall ops, token | Monotone(ops) && TokensIn(ops, Usable(u)) && AllowedRun(c, ops, maxTokens)
        ensures Spaced(c, AllAdmitted(c, ops, token))
      {
        if c.limit < 1 || c.window <= 0 {
          DegenerateSpacing(c, ops, token);
        } else {
          FewTokensAreSpared(c, ops, maxTokens, Usable(u), token);
          SparedSpacing(c, ops, token);
        }
      }
    } else {
      var ops, a := QuotaExceeded(c, maxTokens, Usable(u));
      OneTooMany(c, maxTokens, Usable(u), ops, a);
    }
  }

  /** So is the plain sliding window over all admissions ever made. */
  lemma SlidingWindowIff(c: Config, maxTokens: int, u: set<Token>)
    ensures AlwaysSlidingWindow(c, maxTokens, u) <==> QuotaIsSafe(c, maxTokens, u)
  {
    if QuotaIsSafe(c, maxTokens, u) {
      forall ops, token, now | NotAfter(ops, now) && TokensIn(ops, Usable(u)) && AllowedRun(c, ops, maxTokens)
        ensures |Live(TimesOf(Run(c, ops), token), now, c.window)| < c.limit
                <==> |Live(AllAdmitted(c, ops, token), now, c.window)| < c.limit
      {
        if c.limit < 1 || c.window <= 0 {
          DegenerateWindow(c, ops, token, now);
        } else {
          FewTokensAreSpared(c, ops, maxTokens, Usable(u), token);
          SparedWindow(c, ops, token, now);
        }
      }
    } else {
      var ops, a := QuotaExceeded(c, maxTokens, Usable(u));
      ZerosStayLive(AllAdmitted(c, ops, a), c.window);
    }
  }

  /** One run of four steps: two admissions of `a` three time units apart, under a limit of one in ten. */
  function EvictedAndBack(a: Token, b: Token): seq<Op> {
    [Request(a, 0)] + [Request(b, 1)] + [Clean(2, {a})] + [Request(a, 3)]
  }

  lemma AdmittedNext(c: Config, ops: seq<Op>, op: Op, token: Token)
    ensures var more := AllAdmitted(c, ops + [op], token);
            more == AllAdmitted(c, ops, token)
                    + (if op.Request? && op.token == token && |Live(TimesOf(Run(c, ops), token), op.time, c.window)| < c.limit
                       then [op.time] else [])
  {
    assert (ops + [op])[..|ops|] == ops;
  }

  lemma OneLive(t: int, now: int, window: int)
    requires now - t < window
    ensures Live([t], now, window) == [t]
  {
    LiveAppend([], t, now, window);
    assert [] + [t] == [t];
  }

  ghost predicate HoldsTwo(requests: map<Token, seq<int>>, a: Token, b: Token) {
    requests.Keys == {a, b} && requests[a] == [0] && requests[b] == [1]
  }

  lemma FirstOfTwoMayGo(data: map<Token, seq<int>>, a: Token, b: Token)
    requires a != b && HoldsTwo(data, a, b)
    ensures MayEvict(data, 1, {a})
  {
    assert |data| == |data.Keys|;
  }

  lemma TwoLive(requests: map<Token, seq<int>>, a: Token, b: Token, window: int)
    requires a != b && HoldsTwo(requests, a, b) && window > 2
    ensures HoldsTwo(LiveData(requests, 2, window), a, b)
  {
    OneLive(0, 2, window);
    OneLive(1, 2, window);
  }

  /** The table when the cleanup comes. */
  lemma TwoTokensIn(c: Config, a: Token, b: Token, two: seq<Op>)
    requires a != b && c.limit >= 1 && two == [Request(a, 0)] + [Request(b, 1)]
    ensures HoldsTwo(Run(c, two), a, b) && AllAdmitted(c, two, a) == [0] && OnlyRequests(two)
  {
    var one := [Request(a, 0)];
    RunNext(c, [], Request(a, 0));
    AdmittedNext(c, [], Request(a, 0), a);
    assert [] + one == one;
    FirstRequest(c, map[], a, 0);
    RunNext(c, one, Request(b, 1));
    AdmittedNext(c, one, Request(b, 1), a);
    FirstRequest(c, map[a := [0]], b, 1);
  }

  /** The cleanup may evict `a`, whose next request is then admitted. */
  lemma EvictedTokenComesBack(a: Token, b: Token)
    requires a != b
    ensures NotAfter(EvictedAndBack(a, b), 3) && AllowedRun(Config(1, 10), EvictedAndBack(a, b), 1)
    ensures AllAdmitted(Config(1, 10), EvictedAndBack(a, b), a) == [0, 3]
  {
    ComesBack(Config(1, 10), [Request(a, 0)] + [Request(b, 1)], a, b);
  }

  lemma ComesBack(c: Config, two: seq<Op>, a: Token, b: Token)
    requires a != b && c.limit >= 1 && c.window > 2 && two == [Request(a, 0)] + [Request(b, 1)]
    ensures AllowedRun(c, two + [Clean(2, {a})] + [Request(a, 3)], 1)
    ensures AllAdmitted(c, two + [Clean(2, {a})] + [Request(a, 3)], a) == [0, 3]
  {
    TwoTokensIn(c, a, b, two);
    TwoLive(Run(c, two), a, b, c.window);
    FirstOfTwoMayGo(LiveData(Run(c, two), 2, c.window), a, b);
    BackAgain(c, two, a);
  }

  lemma BackAgain(c: Config, ops: seq<Op>, a: Token)
    requires c.limit >= 1 && AllAdmitted(c, ops, a) == [0]
    requires OnlyRequests(ops) && MayEvict(LiveData(Run(c, ops), 2, c.window), 1, {a})
    ensures AllowedRun(c, ops + [Clean(2, {a})] + [Request(a, 3)], 1)
    ensures AllAdmitted(c, ops + [Clean(2, {a})] + [Request(a, 3)], a) == [0, 3]
  {
    var cleaned := ops + [Clean(2, {a})];
    RequestsAreAllowed(c, ops, 1);
    AllowedNext(c, ops, Clean(2, {a}), 1);
    AllowedNext(c, cleaned, Request(a, 3), 1);
    CleanNext(c, ops, 2, {a}, a);
    AdmittedNext(c, cleaned, Request(a, 3), a);
  }
}
