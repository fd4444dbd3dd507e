/**
 The per-token sliding-window rate limiter. Times are clock readings in whole units, handed in
 by the caller.
 */
module RateLimits {

  type Token = string

  datatype Decision = Unauthorized | TooMany | Admitted

  /** `extractToken`: what follows "Bearer ", or nothing. */
  function ExtractToken(header: string): Token {
    if "Bearer " <= header then header[7..] else ""
  }

  /** The header presents this token, a non-empty one. */
  predicate Presents(header: string, token: Token) {
    token != "" && header == "Bearer " + token
  }

  lemma TokenIff(header: string)
    ensures ExtractToken(header) != "" ==> Presents(header, ExtractToken(header))
    ensures forall token :: Presents(header, token) ==> ExtractToken(header) == token
  {
    if "Bearer " <= header {
      assert header == "Bearer " + header[7..];
    }
  }

  /** The timestamps younger than the window. */
  function Live(times: seq<int>, now: int, window: int): seq<int> {
    if times == [] then []
    else Live(times[..|times| - 1], now, window)
         + (if now - times[|times| - 1] < window then [times[|times| - 1]] else [])
  }

  function TimesOf(requests: map<Token, seq<int>>, token: Token): seq<int> {
    if token in requests then requests[token] else []
  }

  lemma {:induction false} LiveOfLive(times: seq<int>, n: int, t: int, window: int)
    requires n <= t
    ensures Live(Live(times, n, window), t, window) == Live(times, t, window)
  {
    if times != [] {
      var front := times[..|times| - 1];
      LiveOfLive(front, n, t, window);
      var live := Live(front, n, window);
      var x := times[|times| - 1];
      assert (live + [x])[..|live + [x]| - 1] == live;
      assert live + [] == live;
      if n - x < window {
        assert Live(times, n, window) == live + [x];
      } else {
        assert Live(times, n, window) == live;
      }
    }
  }

  lemma {:induction false} LiveMembers(times: seq<int>, now: int, window: int)
    ensures forall x :: x in Live(times, now, window) <==> x in times && now - x < window
    ensures |Live(times, now, window)| <= |times|
  {
    if times != [] {
      var n := |times| - 1;
      LiveMembers(times[..n], now, window);
      assert times == times[..n] + [times[n]];
    }
  }

  method FilterLive(times: seq<int>, now: int, window: int) returns (valid: seq<int>)
    ensures valid == Live(times, now, window)
  {
    valid := [];
    for i := 0 to |times|
      invariant valid == Live(times[..i], now, window)
    {
      assert times[..i + 1][..i] == times[..i];
      if now - times[i] < window {
        valid := valid + [times[i]];
      }
    }
    assert times[..|times|] == times;
  }

  // ----- Eviction

  /** The tokens that still have a live timestamp, with their live timestamps. */
  function LiveData(requests: map<Token, seq<int>>, now: int, window: int): map<Token, seq<int>> {
    map token | token in requests && Live(requests[token], now, window) != [] :: Live(requests[token], now, window)
  }

  /** Evicting `out` is what sorting by first live timestamp allows; ties may go either way. */
  ghost predicate MayEvict(data: map<Token, seq<int>>, maxTokens: int, out: set<Token>) {
    && out <= data.Keys
    && (forall token :: token in data ==> data[token] != [])
    && |out| == (if |data| > maxTokens then if maxTokens < 0 then |data| else |data| - maxTokens else 0)
    && forall e, k :: e in out && k in data && k !in out ==> data[e][0] <= data[k][0]
  }

  lemma RestIsEvicted(data: map<Token, seq<int>>, kept: map<Token, seq<int>>)
    requires kept.Keys <= data.Keys
    ensures |data.Keys - kept.Keys| == |data| - |kept|
  {
    assert data.Keys == kept.Keys + (data.Keys - kept.Keys);
  }

  /** A request carrying a token, the empty one being turned away before, or a cleanup that evicts the tokens of `out`. */
  datatype Op = Request(token: Token, time: int) | Clean(time: int, out: set<Token>)

  datatype Config = Config(limit: int, window: int)

  /** What one operation does to the table: the contracts of `Middleware` and `Cleanup`. */
  function Apply(c: Config, requests: map<Token, seq<int>>, op: Op): map<Token, seq<int>> {
    match op
    case Request(token, t) =>
      var valid := Live(TimesOf(requests, token), t, c.window);
      requests[token := if |valid| < c.limit then valid + [t] else valid]
    case Clean(t, out) =>
      LiveData(requests, t, c.window) - out
  }

  class RateLimiter {
    var requests: map<Token, seq<int>>
    const limit: int
    const window: int
    var maxTokens: int

    constructor (limit: int, window: int)
      ensures requests == map[] && this.limit == limit && this.window == window && maxTokens == 1000
    {
      requests := map[];
      this.limit := limit;
      this.window := window;
      maxTokens := 1000;
    }

    method SetMaxTokens(max: int)
      modifies this`maxTokens
      ensures maxTokens == max
    {
      maxTokens := max;
    }

    /** The decision for one request. */
    method Middleware(header: string, now: int) returns (d: Decision)
      modifies this`requests
      ensures d == Unauthorized <==> forall token :: !Presents(header, token)
      ensures d == Unauthorized ==> requests == old(requests)
      ensures forall token :: Presents(header, token) ==>
                && (d == Admitted <==> |Live(TimesOf(old(requests), token), now, window)| < limit)
                && requests == Apply(Config(limit, window), old(requests), Request(token, now))
    {
      var token := ExtractToken(header);
      TokenIff(header);
      if token == "" {
        return Unauthorized;
      }
      var valid := FilterLive(TimesOf(requests, token), now, window);
      requests := requests[token := valid];
      if |valid| >= limit {
        return TooMany;
      }
      requests := requests[token := requests[token] + [now]];
      return Admitted;
    }

    /** Background cleanup: stale entries go, and the oldest tokens beyond the limit. */
    method Cleanup(now: int) returns (ghost out: set<Token>)
      modifies this`requests
      ensures MayEvict(LiveData(old(requests), now, window), maxTokens, out)
      ensures requests == Apply(Config(limit, window), old(requests), Clean(now, out))
      ensures maxTokens >= 0 ==> |requests| <= maxTokens
    {
      var tokenData := CollectLive(now);
      var kept := Enforce(tokenData, maxTokens);
      out := tokenData.Keys - kept.Keys;
      requests := kept;
    }

    /** First pass: the live timestamps of every token; the table is emptied on the way. */
    method CollectLive(now: int) returns (tokenData: map<Token, seq<int>>)
      modifies this`requests
      ensures tokenData == LiveData(old(requests), now, window) && requests == map[]
    {
      ghost var before := requests;
      tokenData := map[];
      var todo := requests.Keys;
      while todo != {}
        invariant todo <= before.Keys && requests.Keys == todo
        invariant forall t :: t in todo ==> requests[t] == before[t]
        invariant forall t :: t in tokenData <==> t in before && t !in todo && Live(before[t], now, window) != []
        invariant forall t :: t in tokenData ==> tokenData[t] == Live(before[t], now, window)
      {
        var token :| token in todo;
        var valid := FilterLive(requests[token], now, window);
        if |valid| > 0 {
          tokenData := tokenData[token := valid];
        }
        requests := requests - {token};
        todo := todo - {token};
      }
    }
  }

  /** Second pass: down to `maxTokens` tokens. */
  method Enforce(data: map<Token, seq<int>>, maxTokens: int) returns (kept: map<Token, seq<int>>)
    requires forall token :: token in data ==> data[token] != []
    ensures MayEvict(data, maxTokens, data.Keys - kept.Keys) && kept == data - (data.Keys - kept.Keys)
    ensures maxTokens >= 0 ==> |kept| <= maxTokens
  {
    kept := data;
    if |data| > maxTokens {
      var evictCount := |data| - maxTokens;
      kept := EvictOldest(data, evictCount);
    }
    RestIsEvicted(data, kept);
  }

  /** Deletes the first `count` tokens in order of their first timestamp. */
  method EvictOldest(data0: map<Token, seq<int>>, count: nat) returns (data: map<Token, seq<int>>)
    requires forall token :: token in data0 ==> data0[token] != []
    ensures data.Keys <= data0.Keys && data == data0 - (data0.Keys - data.Keys)
    ensures |data| == if count < |data0| then |data0| - count else 0
    ensures forall e, k :: e in data0 && e !in data && k in data ==> data0[e][0] <= data0[k][0]
  {
    data := data0;
    var i := 0;
    while i < count && i < |data0|
      invariant i <= |data0| && i <= count && |data| == |data0| - i
      invariant data.Keys <= data0.Keys && data == data0 - (data0.Keys - data.Keys)
      invariant forall e, k :: e in data0 && e !in data && k in data ==> data0[e][0] <= data0[k][0]
    {
      assert data.Keys != {};
      OldestExists(data);
      var token :| IsOldest(data, token);
      WithoutToken(data0, data, token);
      data := data - {token};
      i := i + 1;
    }
  }

  lemma WithoutToken(data0: map<Token, seq<int>>, data: map<Token, seq<int>>, token: Token)
    requires token in data && data.Keys <= data0.Keys && data == data0 - (data0.Keys - data.Keys)
    ensures var rest := data - {token};
            && rest.Keys == data.Keys - {token} && |rest| == |data| - 1
            && rest == data0 - (data0.Keys - rest.Keys)
  {
    var rest := data - {token};
    assert data.Keys == rest.Keys + {token};
  }

  predicate IsOldest(data: map<Token, seq<int>>, token: Token)
    requires forall t :: t in data ==> data[t] != []
  {
    token in data && forall k :: k in data ==> data[token][0] <= data[k][0]
  }

  lemma {:induction false} OldestExists(data: map<Token, seq<int>>)
    requires data.Keys != {} && forall t :: t in data ==> data[t] != []
    ensures exists token :: IsOldest(data, token)
    decreases |data|
  {
    var t :| t in data;
    var rest := data - {t};
    if rest.Keys == {} {
      assert forall k :: k in data ==> k == t || k in rest.Keys;
      assert IsOldest(data, t);
    } else {
      assert rest.Keys < data.Keys;
      assert |rest| < |data| by {
        assert data.Keys == rest.Keys + {t};
      }
      OldestExists(rest);
      var u :| IsOldest(rest, u);
      assert forall k :: k in data ==> k == t || k in rest;
      assert IsOldest(data, if data[t][0] <= data[u][0] then t else u);
    }
  }
}
