/** Causal instrumentation of event lists, and the three ways of comparing two of them. */
module CausalTraces {
  import opened Wrappers
  import opened CausalGraph

  datatype CausalEvent = CausalEvent(seqNo: nat, eventType: string, jobID: string, stepID: string, status: string, payload: string,
                                     causalID: string, parentID: string, phaseID: string)

  // ----- Instrumentation

  function Decimal(n: nat): string {
    if n < 10 then [('0' as int + n) as char] else Decimal(n / 10) + [('0' as int + n % 10) as char]
  }

  function ComputeCausalID(jobID: string, stepID: string, phase: string, n: nat): string {
    jobID + "|" + stepID + "|" + phase + "|" + Decimal(n)
  }

  function GetPhase(eventType: string): string {
    if eventType == "CI_JOB_STARTED" || eventType == "CI_JOB_FINISHED" then "JOB_LIFECYCLE"
    else if eventType == "CI_STEP_STARTED" || eventType == "CI_STEP_FINISHED" then "STEP_EXECUTION"
    else if eventType == "CI_CACHE_HIT" || eventType == "CI_CACHE_MISS" then "CACHE_RESOLUTION"
    else if eventType == "CI_ARTIFACT" then "ARTIFACT_STORAGE"
    else "UNKNOWN"
  }

  function IdAt(events: seq<Event>, i: nat): string
    requires i < |events|
  {
    ComputeCausalID(events[i].jobID, events[i].stepID, GetPhase(events[i].eventType), i)
  }

  /** An event has the event before it as its parent when both belong to one job. */
  function ParentAt(events: seq<Event>, i: nat): string
    requires i < |events|
  {
    if i > 0 && events[i - 1].jobID == events[i].jobID then IdAt(events, i - 1) else ""
  }

  function CausalAt(events: seq<Event>, i: nat): CausalEvent
    requires i < |events|
  {
    var e := events[i];
    CausalEvent(i, e.eventType, e.jobID, e.stepID, e.status, e.payload, IdAt(events, i), ParentAt(events, i), GetPhase(e.eventType))
  }

  /** `c` is the instrumented form of `events`. */
  ghost predicate Instrumented(events: seq<Event>, c: seq<CausalEvent>) {
    |c| == |events| && forall i :: 0 <= i < |events| ==> c[i] == CausalAt(events, i)
  }

  method InstrumentEvents(events: seq<Event>) returns (c: seq<CausalEvent>)
    ensures Instrumented(events, c)
  {
    c := [];
    var lastCausalID := "";
    for i := 0 to |events|
      invariant |c| == i && forall k :: 0 <= k < i ==> c[k] == CausalAt(events, k)
      invariant i > 0 ==> lastCausalID == IdAt(events, i - 1)
    {
      var e := events[i];
      var phase := GetPhase(e.eventType);
      var causalID := ComputeCausalID(e.jobID, e.stepID, phase, i);
      var parentID := "";
      if i > 0 && events[i - 1].jobID == e.jobID {
        parentID := lastCausalID;
      }
      var ce := CausalEvent(i, e.eventType, e.jobID, e.stepID, e.status, e.payload, causalID, parentID, phase);
      assert ce == CausalAt(events, i);
      c := c + [ce];
      lastCausalID := causalID;
    }
  }

  // ----- Causal identifiers tell the positions apart

  function ValueOf(digits: string): int {
    if digits == [] then 0 else 10 * ValueOf(digits[..|digits| - 1]) + (digits[|digits| - 1] as int - '0' as int)
  }

  lemma {:induction false} DecimalValue(n: nat)
    ensures Decimal(n) != [] && ValueOf(Decimal(n)) == n && '|' !in Decimal(n)
  {
    if n >= 10 {
      DecimalValue(n / 10);
      var front, last := Decimal(n / 10), ('0' as int + n % 10) as char;
      assert Decimal(n) == front + [last] && (front + [last])[..|front|] == front;
    } else {
      assert Decimal(n)[..0] == [];
    }
  }

  /** What follows the last bar. */
  function AfterBar(s: string): string {
    if s == [] || s[|s| - 1] == '|' then [] else AfterBar(s[..|s| - 1]) + [s[|s| - 1]]
  }

  lemma {:induction false} AfterBarOf(a: string, b: string)
    requires '|' !in b
    ensures AfterBar(a + ['|'] + b) == b
  {
    if b != [] {
      var n := |b| - 1;
      var s := a + ['|'] + b;
      assert s[..|s| - 1] == a + ['|'] + b[..n];
      AfterBarOf(a, b[..n]);
    }
  }

  lemma PositionInId(events: seq<Event>, i: nat)
    requires i < |events|
    ensures ValueOf(AfterBar(IdAt(events, i))) == i
  {
    var e := events[i];
    var front := e.jobID + "|" + e.stepID + "|" + GetPhase(e.eventType);
    DecimalValue(i);
    assert IdAt(events, i) == front + ['|'] + Decimal(i);
    AfterBarOf(front, Decimal(i));
  }

  /** Whatever the events, no two of a list have the same causal identifier, so a parent is one event. */
  lemma IdsAreUnique(events: seq<Event>, i: nat, j: nat)
    requires i < |events| && j < |events| && IdAt(events, i) == IdAt(events, j)
    ensures i == j
  {
    PositionInId(events, i);
    PositionInId(events, j);
  }

  /** The phase tells the kind of event. */
  lemma PhaseIff(eventType: string)
    ensures GetPhase(eventType) == "JOB_LIFECYCLE" <==> eventType in {"CI_JOB_STARTED", "CI_JOB_FINISHED"}
    ensures GetPhase(eventType) == "STEP_EXECUTION" <==> eventType in {"CI_STEP_STARTED", "CI_STEP_FINISHED"}
    ensures GetPhase(eventType) == "CACHE_RESOLUTION" <==> eventType in {"CI_CACHE_HIT", "CI_CACHE_MISS"}
    ensures GetPhase(eventType) == "ARTIFACT_STORAGE" <==> eventType == "CI_ARTIFACT"
  {
    assert "JOB_LIFECYCLE"[0] == 'J' && "STEP_EXECUTION"[0] == 'S' && "CACHE_RESOLUTION"[0] == 'C' && "ARTIFACT_STORAGE"[0] == 'A';
    assert "UNKNOWN"[0] == 'U';
  }

  // ----- The locator

  datatype DiffType = CacheHitMismatch | OrderingMismatch | ArtifactMismatch | MissingEvent | ExtraEvent

  datatype Divergence = Divergence(index: nat, oracle: Option<CausalEvent>, replay: Option<CausalEvent>, kind: DiffType)

  predicate IsCache(e: CausalEvent) {
    e.eventType == "CI_CACHE_HIT" || e.eventType == "CI_CACHE_MISS"
  }

  predicate Agree(o: CausalEvent, r: CausalEvent) {
    o.eventType == r.eventType && o.status == r.status && o.payload == r.payload && o.causalID == r.causalID && o.parentID == r.parentID
  }

  /** What two differing events are reported as. */
  function LocatedKind(o: CausalEvent, r: CausalEvent): DiffType {
    if o.eventType != r.eventType || o.status != r.status then if IsCache(o) then CacheHitMismatch else OrderingMismatch
    else if o.payload != r.payload then ArtifactMismatch
    else OrderingMismatch
  }

  function Min(a: nat, b: nat): nat {
    if a < b then a else b
  }

  /** `d` reports the first position where the traces do not agree, and in what way. */
  ghost predicate IsFirst(o: seq<CausalEvent>, r: seq<CausalEvent>, d: Divergence) {
    && d.index <= Min(|o|, |r|)
    && (forall i :: 0 <= i < d.index ==> Agree(o[i], r[i]))
    && if d.index < Min(|o|, |r|) then
         && !Agree(o[d.index], r[d.index])
         && d == Divergence(d.index, Some(o[d.index]), Some(r[d.index]), LocatedKind(o[d.index], r[d.index]))
       else if |o| > |r| then d == Divergence(d.index, Some(o[d.index]), None, MissingEvent)
       else |o| < |r| && d == Divergence(d.index, None, Some(r[d.index]), ExtraEvent)
  }

  method LocateDivergence(oracle: seq<CausalEvent>, replay: seq<CausalEvent>) returns (d: Option<Divergence>)
    ensures d == None <==> |oracle| == |replay| && forall i :: 0 <= i < |oracle| ==> Agree(oracle[i], replay[i])
    ensures d.Some? ==> IsFirst(oracle, replay, d.value)
  {
    var minLen := |oracle|;
    if |replay| < minLen {
      minLen := |replay|;
    }
    for i := 0 to minLen
      invariant forall k :: 0 <= k < i ==> Agree(oracle[k], replay[k])
    {
      var o, r := oracle[i], replay[i];
      if o.eventType == "CI_CACHE_HIT" || o.eventType == "CI_CACHE_MISS" {
        if o.eventType != r.eventType || o.status != r.status {
          return Some(Divergence(i, Some(o), Some(r), CacheHitMismatch));
        }
      }
      if o.eventType != r.eventType {
        return Some(Divergence(i, Some(o), Some(r), OrderingMismatch));
      }
      if o.status != r.status {
        return Some(Divergence(i, Some(o), Some(r), OrderingMismatch));
      }
      if o.payload != r.payload {
        return Some(Divergence(i, Some(o), Some(r), ArtifactMismatch));
      }
      if o.causalID != r.causalID || o.parentID != r.parentID {
        return Some(Divergence(i, Some(o), Some(r), OrderingMismatch));
      }
    }
    if |oracle| > |replay| {
      return Some(Divergence(|replay|, Some(oracle[|replay|]), None, MissingEvent));
    }
    if |replay| > |oracle| {
      return Some(Divergence(|oracle|, None, Some(replay[|oracle|]), ExtraEvent));
    }
    return None;
  }

  // ----- The coarser comparator

  /** Payloads count only for artifacts, causal identifiers not at all. */
  predicate CoarselyAgree(o: CausalEvent, r: CausalEvent) {
    o.eventType == r.eventType && o.status == r.status && (o.eventType == "CI_ARTIFACT" ==> o.payload == r.payload)
  }

  function CoarseKind(o: CausalEvent, r: CausalEvent): DiffType {
    if o.eventType != r.eventType then OrderingMismatch
    else if o.status != r.status then if IsCache(o) then CacheHitMismatch else OrderingMismatch
    else ArtifactMismatch
  }

  ghost predicate IsFirstCoarse(o: seq<CausalEvent>, r: seq<CausalEvent>, d: Divergence) {
    && d.index <= Min(|o|, |r|)
    && (forall i :: 0 <= i < d.index ==> CoarselyAgree(o[i], r[i]))
    && if d.index < Min(|o|, |r|) then
         && !CoarselyAgree(o[d.index], r[d.index])
         && d == Divergence(d.index, Some(o[d.index]), Some(r[d.index]), CoarseKind(o[d.index], r[d.index]))
       else if |o| > |r| then d == Divergence(d.index, Some(o[d.index]), None, MissingEvent)
       else |o| < |r| && d == Divergence(d.index, None, Some(r[d.index]), ExtraEvent)
  }

  method FindFirstDivergentNode(oracle: seq<CausalEvent>, replay: seq<CausalEvent>) returns (d: Option<Divergence>)
    ensures d == None <==> |oracle| == |replay| && forall i :: 0 <= i < |oracle| ==> CoarselyAgree(oracle[i], replay[i])
    ensures d.Some? ==> IsFirstCoarse(oracle, replay, d.value)
  {
    var minLen := |oracle|;
    if |replay| < minLen {
      minLen := |replay|;
    }
    for i := 0 to minLen
      invariant forall k :: 0 <= k < i ==> CoarselyAgree(oracle[k], replay[k])
    {
      var o, r := oracle[i], replay[i];
      if o.eventType != r.eventType {
        return Some(Divergence(i, Some(o), Some(r), OrderingMismatch));
      }
      if o.status != r.status {
        if o.eventType == "CI_CACHE_HIT" || o.eventType == "CI_CACHE_MISS" {
          return Some(Divergence(i, Some(o), Some(r), CacheHitMismatch));
        }
        return Some(Divergence(i, Some(o), Some(r), OrderingMismatch));
      }
      if o.payload != r.payload && o.eventType == "CI_ARTIFACT" {
        return Some(Divergence(i, Some(o), Some(r), ArtifactMismatch));
      }
    }
    if |oracle| > |replay| {
      return Some(Divergence(|replay|, Some(oracle[|replay|]), None, MissingEvent));
    }
    if |replay| > |oracle| {
      return Some(Divergence(|oracle|, None, Some(replay[|oracle|]), ExtraEvent));
    }
    return None;
  }

  /** Whenever the coarse comparator reports a difference, the locator reports one at the same place or earlier. */
  lemma LocatorIsFiner(o: seq<CausalEvent>, r: seq<CausalEvent>, coarse: Divergence, located: Option<Divergence>)
    requires IsFirstCoarse(o, r, coarse)
    requires located == None <==> |o| == |r| && forall i :: 0 <= i < |o| ==> Agree(o[i], r[i])
    requires located.Some? ==> IsFirst(o, r, located.value)
    ensures located.Some? && located.value.index <= coarse.index
  {
    if coarse.index < Min(|o|, |r|) {
      assert !Agree(o[coarse.index], r[coarse.index]);
    }
  }

  /** The two events tell of different things, or of different outcomes. */
  predicate Differ(o: CausalEvent, r: CausalEvent) {
    o.eventType != r.eventType || o.status != r.status
  }

  predicate CacheEvent(o: CausalEvent) {
    o.eventType in {"CI_CACHE_HIT", "CI_CACHE_MISS"}
  }

  /** What the locator calls a difference: of a cache decision, of content, or of order. */
  lemma LocatedKindIff(o: seq<CausalEvent>, r: seq<CausalEvent>, d: Divergence)
    requires IsFirst(o, r, d)
    ensures d.kind == CacheHitMismatch <==>
              d.index < |o| && d.index < |r| && CacheEvent(o[d.index]) && Differ(o[d.index], r[d.index])
    ensures d.kind == ArtifactMismatch <==>
              d.index < |o| && d.index < |r| && !Differ(o[d.index], r[d.index]) && o[d.index].payload != r[d.index].payload
    ensures d.kind == MissingEvent <==> d.index == |r| < |o|
    ensures d.kind == ExtraEvent <==> d.index == |o| < |r|
  {
  }

  /** The coarse comparator: a cache decision only counts when the types are the same, content only in artifacts. */
  lemma CoarseKindIff(o: seq<CausalEvent>, r: seq<CausalEvent>, d: Divergence)
    requires IsFirstCoarse(o, r, d)
    ensures d.kind == CacheHitMismatch <==>
              d.index < |o| && d.index < |r| && CacheEvent(o[d.index]) && o[d.index].eventType == r[d.index].eventType
              && Differ(o[d.index], r[d.index])
    ensures d.kind == ArtifactMismatch <==>
              d.index < |o| && d.index < |r| && !Differ(o[d.index], r[d.index]) && o[d.index].payload != r[d.index].payload
    ensures d.kind == MissingEvent <==> d.index == |r| < |o|
    ensures d.kind == ExtraEvent <==> d.index == |o| < |r|
  {
  }

  // ----- The replay verifier

  type Hash = string -> string

  datatype Verdict = Verdict(ok: bool, firstDiff: int)

  predicate EventsEqual(a: Event, b: Event, hash: Hash) {
    a.eventType == b.eventType && a.jobID == b.jobID && a.stepID == b.stepID && a.status == b.status
    && hash(a.payload) == hash(b.payload)
  }

  /** The comparison part of `Replay`. */
  method Verify(original: seq<Event>, replayed: seq<Event>, hash: Hash) returns (v: Verdict)
    ensures v.ok <==> |original| == |replayed| && forall i :: 0 <= i < |original| ==> EventsEqual(original[i], replayed[i], hash)
    ensures |original| != |replayed| ==> v == Verdict(false, -1)
    ensures |original| == |replayed| && !v.ok ==>
              && 0 <= v.firstDiff < |original| && !EventsEqual(original[v.firstDiff], replayed[v.firstDiff], hash)
              && forall i :: 0 <= i < v.firstDiff ==> EventsEqual(original[i], replayed[i], hash)
    ensures v.ok ==> v.firstDiff == -1
  {
    v := Verdict(true, -1);
    if |original| != |replayed| {
      return Verdict(false, -1);
    }
    var i := 0;
    while i < |original|
      invariant 0 <= i <= |original| && v == Verdict(true, -1)
      invariant forall k :: 0 <= k < i ==> EventsEqual(original[k], replayed[k], hash)
    {
      if !EventsEqual(original[i], replayed[i], hash) {
        v := Verdict(false, i);
        break;
      }
      i := i + 1;
    }
  }

  // ----- Agreement of the comparators

  /** Everything the comparators look at, apart from the causal identifiers. */
  predicate SameEvent(a: Event, b: Event) {
    a.eventType == b.eventType && a.jobID == b.jobID && a.stepID == b.stepID && a.status == b.status && a.payload == b.payload
  }

  lemma CancelSuffix(x: string, y: string, z: string)
    requires x + z == y + z
    ensures x == y
  {
    assert |x| == |y|;
    assert x == (x + z)[..|x|] && y == (y + z)[..|y|];
  }

  /** `x` is `y`, a bar, and some rest. */
  predicate BarExtends(x: string, y: string) {
    |x| > |y| && x[..|y|] == y && x[|y|] == '|'
  }

  /** No identifier of the set is another one of it, followed by a bar and a rest. */
  ghost predicate BarSafe(jobs: iset<string>) {
    forall x, y :: x in jobs && y in jobs ==> !BarExtends(x, y)
  }

  ghost predicate JobsIn(events: seq<Event>, jobs: iset<string>) {
    forall i :: 0 <= i < |events| ==> events[i].jobID in jobs
  }

  /** Identifiers without a bar are a safe set. */
  lemma BarFreeIsSafe(jobs: iset<string>)
    requires forall x :: x in jobs ==> '|' !in x
    ensures BarSafe(jobs)
  {
    forall x, y | x in jobs && y in jobs
      ensures !BarExtends(x, y)
    {
      assert |x| > |y| ==> x[|y|] in x;
    }
  }

  lemma LongerExtends(j1: string, s1: string, j2: string, s2: string)
    requires |j1| > |j2| && j1 + ['|'] + s1 == j2 + ['|'] + s2
    ensures BarExtends(j1, j2)
  {
    var x, y := j1 + ['|'] + s1, j2 + ['|'] + s2;
    assert j1[..|j2|] == x[..|j2|] && y[..|j2|] == j2;
    assert j1[|j2|] == x[|j2|] && y[|j2|] == '|';
  }

  /** Jobs that do not extend each other are read off their joined form. */
  lemma CancelBar(j1: string, s1: string, j2: string, s2: string)
    requires !BarExtends(j1, j2) && !BarExtends(j2, j1) && j1 + ['|'] + s1 == j2 + ['|'] + s2
    ensures j1 == j2 && s1 == s2
  {
    if |j1| > |j2| {
      LongerExtends(j1, s1, j2, s2);
    } else if |j2| > |j1| {
      LongerExtends(j2, s2, j1, s1);
    } else {
      var x, y := j1 + ['|'] + s1, j2 + ['|'] + s2;
      assert j1 == x[..|j1|] && j2 == y[..|j2|];
      assert s1 == x[|j1| + 1..] && s2 == y[|j2| + 1..];
    }
  }

  function Joined(e: Event): string {
    e.jobID + ['|'] + e.stepID
  }

  function IdTail(phase: string, n: nat): string {
    "|" + phase + "|" + Decimal(n)
  }

  lemma IdIsJoined(events: seq<Event>, i: nat)
    requires i < |events|
    ensures IdAt(events, i) == Joined(events[i]) + IdTail(GetPhase(events[i].eventType), i)
    ensures IdAt(events, i) != ""
  {
  }

  /** Events of one type at one position have equal identifiers exactly when their joined job and step are equal. */
  lemma SameIdIff(a: seq<Event>, b: seq<Event>, i: nat)
    requires i < |a| && i < |b| && a[i].eventType == b[i].eventType
    ensures IdAt(a, i) == IdAt(b, i) <==> Joined(a[i]) == Joined(b[i])
  {
    IdIsJoined(a, i);
    IdIsJoined(b, i);
    if IdAt(a, i) == IdAt(b, i) {
      CancelSuffix(Joined(a[i]), Joined(b[i]), IdTail(GetPhase(a[i].eventType), i));
    }
  }

  /** Does the event continue the job of the event before it? */
  predicate Continues(events: seq<Event>, i: nat)
    requires i < |events|
  {
    i > 0 && events[i - 1].jobID == events[i].jobID
  }

  /** What agreement with the locator comes to, event by event, on uninstrumented lists. */
  predicate Indistinct(a: seq<Event>, b: seq<Event>, i: nat)
    requires i < |a| && i < |b|
  {
    a[i].eventType == b[i].eventType && a[i].status == b[i].status && a[i].payload == b[i].payload
    && Joined(a[i]) == Joined(b[i]) && Continues(a, i) == Continues(b, i)
  }

  /** Up to the first disagreement, instrumented events agree exactly when the events are indistinct. */
  lemma AgreeIffIndistinct(a: seq<Event>, b: seq<Event>, i: nat)
    requires i < |a| && i < |b| && (i > 0 ==> IdAt(a, i - 1) == IdAt(b, i - 1))
    ensures Agree(CausalAt(a, i), CausalAt(b, i)) <==> Indistinct(a, b, i)
  {
    if a[i].eventType == b[i].eventType {
      SameIdIff(a, b, i);
    }
    if i > 0 {
      IdIsJoined(a, i - 1);
      IdIsJoined(b, i - 1);
    }
  }

  ghost predicate AgreesUpTo(a: seq<Event>, b: seq<Event>, n: nat)
    requires n <= |a| && n <= |b|
  {
    forall i :: 0 <= i < n ==> Agree(CausalAt(a, i), CausalAt(b, i))
  }

  ghost predicate IndistinctUpTo(a: seq<Event>, b: seq<Event>, n: nat)
    requires n <= |a| && n <= |b|
  {
    forall i :: 0 <= i < n ==> Indistinct(a, b, i)
  }

  ghost predicate SameUpTo(a: seq<Event>, b: seq<Event>, n: nat)
    requires n <= |a| && n <= |b|
  {
    forall i :: 0 <= i < n ==> SameEvent(a[i], b[i])
  }

  lemma {:induction false} PrefixAgrees(a: seq<Event>, b: seq<Event>, n: nat)
    requires n <= |a| && n <= |b|
    ensures AgreesUpTo(a, b, n) <==> IndistinctUpTo(a, b, n)
    ensures AgreesUpTo(a, b, n) && n > 0 ==> IdAt(a, n - 1) == IdAt(b, n - 1)
  {
    if n > 0 {
      PrefixAgrees(a, b, n - 1);
      if AgreesUpTo(a, b, n - 1) {
        AgreeIffIndistinct(a, b, n - 1);
        assert Agree(CausalAt(a, n - 1), CausalAt(b, n - 1)) ==> CausalAt(a, n - 1).causalID == CausalAt(b, n - 1).causalID;
      }
      LastOfPrefix(a, b, n);
    }
  }

  lemma LastOfPrefix(a: seq<Event>, b: seq<Event>, n: nat)
    requires 0 < n <= |a| && n <= |b|
    ensures AgreesUpTo(a, b, n) <==> AgreesUpTo(a, b, n - 1) && Agree(CausalAt(a, n - 1), CausalAt(b, n - 1))
    ensures IndistinctUpTo(a, b, n) <==> IndistinctUpTo(a, b, n - 1) && Indistinct(a, b, n - 1)
    ensures SameUpTo(a, b, n) <==> SameUpTo(a, b, n - 1) && SameEvent(a[n - 1], b[n - 1])
  {
  }

  /** With job identifiers that do not extend each other, events after equal ones are indistinct exactly when they are the same. */
  lemma IndistinctIffSame(a: seq<Event>, b: seq<Event>, i: nat)
    requires i < |a| && i < |b| && !BarExtends(a[i].jobID, b[i].jobID) && !BarExtends(b[i].jobID, a[i].jobID)
    requires i > 0 ==> a[i - 1].jobID == b[i - 1].jobID
    ensures Indistinct(a, b, i) <==> SameEvent(a[i], b[i])
  {
    if Joined(a[i]) == Joined(b[i]) {
      CancelBar(a[i].jobID, a[i].stepID, b[i].jobID, b[i].stepID);
    }
  }

  lemma {:induction false} PrefixSame(jobs: iset<string>, a: seq<Event>, b: seq<Event>, n: nat)
    requires n <= |a| && n <= |b| && BarSafe(jobs) && JobsIn(a, jobs) && JobsIn(b, jobs)
    ensures IndistinctUpTo(a, b, n) <==> SameUpTo(a, b, n)
  {
    if n > 0 {
      PrefixSame(jobs, a, b, n - 1);
      LastOfPrefix(a, b, n);
      if SameUpTo(a, b, n - 1) {
        assert n > 1 ==> SameEvent(a[n - 2], b[n - 2]);
        IndistinctIffSame(a, b, n - 1);
      }
    }
  }

  /** What the locator's contract says of a result. */
  ghost predicate Located(o: seq<CausalEvent>, r: seq<CausalEvent>, d: Option<Divergence>) {
    && (d == None <==> |o| == |r| && forall i :: 0 <= i < |o| ==> Agree(o[i], r[i]))
    && (d.Some? ==> IsFirst(o, r, d.value))
  }

  /** For all event lists: the locator finds nothing exactly when the lists are position by position indistinct. */
  lemma LocatorExact(a: seq<Event>, b: seq<Event>, ca: seq<CausalEvent>, cb: seq<CausalEvent>, d: Option<Divergence>)
    requires Instrumented(a, ca) && Instrumented(b, cb) && Located(ca, cb, d)
    ensures d == None <==> |a| == |b| && forall i :: 0 <= i < |a| ==> Indistinct(a, b, i)
  {
    if |a| == |b| {
      PrefixAgrees(a, b, |a|);
      CausalPrefix(a, b, ca, cb, |a|);
    }
  }

  lemma CausalPrefix(a: seq<Event>, b: seq<Event>, ca: seq<CausalEvent>, cb: seq<CausalEvent>, n: nat)
    requires n <= |a| && n <= |b| && Instrumented(a, ca) && Instrumented(b, cb)
    ensures AgreesUpTo(a, b, n) <==> forall i :: 0 <= i < n ==> Agree(ca[i], cb[i])
  {
    if AgreesUpTo(a, b, n) {
      forall i | 0 <= i < n
        ensures Agree(ca[i], cb[i])
      {
        assert Agree(CausalAt(a, i), CausalAt(b, i));
      }
    }
  }

  /**
   With job identifiers of a safe set, bar-free ones for instance, the locator finds nothing exactly
   when the event lists are equal, and otherwise its index is the least position where they differ.
   */
  lemma LocatorFindsLeast(jobs: iset<string>, a: seq<Event>, b: seq<Event>, ca: seq<CausalEvent>, cb: seq<CausalEvent>, d: Option<Divergence>)
    requires BarSafe(jobs) && JobsIn(a, jobs) && JobsIn(b, jobs)
    requires Instrumented(a, ca) && Instrumented(b, cb) && Located(ca, cb, d)
    ensures d == None <==> |a| == |b| && forall i :: 0 <= i < |a| ==> SameEvent(a[i], b[i])
    ensures d.Some? ==>
              && d.value.index <= Min(|a|, |b|) && (forall i :: 0 <= i < d.value.index ==> SameEvent(a[i], b[i]))
              && (d.value.index < Min(|a|, |b|) ==> !SameEvent(a[d.value.index], b[d.value.index]))
  {
    if |a| == |b| {
      LocatorExact(a, b, ca, cb, d);
      PrefixSame(jobs, a, b, |a|);
    }
    if d.Some? {
      var k := d.value.index;
      CausalPrefix(a, b, ca, cb, k);
      PrefixAgrees(a, b, k);
      PrefixSame(jobs, a, b, k);
      if k < Min(|a|, |b|) {
        AgreeIffIndistinct(a, b, k);
        assert k > 0 ==> SameEvent(a[k - 1], b[k - 1]);
        IndistinctIffSame(a, b, k);
      }
    }
  }

  ghost predicate Injective(hash: Hash) {
    forall p, q :: hash(p) == hash(q) ==> p == q
  }

  /** What the verifier's contract says of a verdict. */
  ghost predicate Verified(a: seq<Event>, b: seq<Event>, hash: Hash, v: Verdict) {
    && (v.ok <==> |a| == |b| && forall i :: 0 <= i < |a| ==> EventsEqual(a[i], b[i], hash))
    && (|a| == |b| && !v.ok ==>
          && 0 <= v.firstDiff < |a| && !EventsEqual(a[v.firstDiff], b[v.firstDiff], hash)
          && forall i :: 0 <= i < v.firstDiff ==> EventsEqual(a[i], b[i], hash))
  }

  /** Then locator and verifier agree, and name the same position when the lists are equally long. */
  lemma ComparatorsAgree(jobs: iset<string>, a: seq<Event>, b: seq<Event>, ca: seq<CausalEvent>, cb: seq<CausalEvent>,
                         hash: Hash, d: Option<Divergence>, v: Verdict)
    requires BarSafe(jobs) && JobsIn(a, jobs) && JobsIn(b, jobs) && Injective(hash)
    requires Instrumented(a, ca) && Instrumented(b, cb) && Located(ca, cb, d) && Verified(a, b, hash, v)
    ensures d == None <==> v.ok
    ensures d.Some? && |a| == |b| ==> d.value.index == v.firstDiff
  {
    LocatorFindsLeast(jobs, a, b, ca, cb, d);
    forall i | 0 <= i < Min(|a|, |b|)
      ensures SameEvent(a[i], b[i]) <==> EventsEqual(a[i], b[i], hash)
    {
    }
  }

  /** What the two comparators say of the same two lists. */
  ghost predicate Compared(a: seq<Event>, b: seq<Event>, ca: seq<CausalEvent>, cb: seq<CausalEvent>,
                           hash: Hash, d: Option<Divergence>, v: Verdict) {
    Instrumented(a, ca) && Instrumented(b, cb) && Located(ca, cb, d) && Verified(a, b, hash, v)
  }

  /** On all event lists of these jobs, locator and verifier agree whether there is a difference. */
  ghost predicate AlwaysAgree(jobs: iset<string>, hash: Hash) {
    forall a, b, ca, cb, d, v :: JobsIn(a, jobs) && JobsIn(b, jobs) && Compared(a, b, ca, cb, hash, d, v) ==> (d == None <==> v.ok)
  }

  /** The one event of a job `x` without a step, and its double of the job that `x` extends. */
  function Extending(x: string): seq<Event> {
    [Event("n", "t", x, "", "s", "p")]
  }

  function Extended(x: string, y: string): seq<Event>
    requires BarExtends(x, y)
  {
    [Event("n", "t", y, x[|y| + 1..] + ['|'], "s", "p")]
  }

  lemma ExtensionIsMissed(x: string, y: string, hash: Hash)
    requires BarExtends(x, y)
    ensures var a, b := Extending(x), Extended(x, y);
            Compared(a, b, [CausalAt(a, 0)], [CausalAt(b, 0)], hash, None, Verdict(false, 0))
  {
    var a, b := Extending(x), Extended(x, y);
    assert x == y + ['|'] + x[|y| + 1..];
    assert Joined(a[0]) == Joined(b[0]);
    AgreeIffIndistinct(a, b, 0);
  }

  /** They agree on all lists exactly when no job identifier is another one followed by a bar and a rest. */
  lemma AgreeOnJobsIff(jobs: iset<string>, hash: Hash)
    requires Injective(hash)
    ensures AlwaysAgree(jobs, hash) <==> BarSafe(jobs)
  {
    if BarSafe(jobs) {
      forall a, b, ca, cb, d, v | JobsIn(a, jobs) && JobsIn(b, jobs) && Compared(a, b, ca, cb, hash, d, v)
        ensures d == None <==> v.ok
      {
        ComparatorsAgree(jobs, a, b, ca, cb, hash, d, v);
      }
    } else {
      var x, y :| x in jobs && y in jobs && BarExtends(x, y);
      ExtensionIsMissed(x, y, hash);
      var a, b := Extending(x), Extended(x, y);
      assert JobsIn(a, jobs) && JobsIn(b, jobs);
      assert Compared(a, b, [CausalAt(a, 0)], [CausalAt(b, 0)], hash, None, Verdict(false, 0));
    }
  }

  /** A bar in a job identifier lets the locator miss a difference that the verifier finds. */
  lemma BarHidesDifference(hash: Hash)
    ensures var a, b := [Event("n", "t", "x|y", "z", "s", "p")], [Event("n", "t", "x", "y|z", "s", "p")];
            Indistinct(a, b, 0) && !EventsEqual(a[0], b[0], hash)
  {
    var a, b := [Event("n", "t", "x|y", "z", "s", "p")], [Event("n", "t", "x", "y|z", "s", "p")];
    assert Joined(a[0]) == "x|y|z" && Joined(b[0]) == "x|y|z";
    assert |"x|y"| != |"x"|;
  }
}
