/** The audit trace of a decision, and the replayer that checks it. */
module PolicyTraces {
  import opened Wrappers
  import opened PolicyEngine
  import Ids

  datatype Stage = GatesStage | CertificationStage | HardFailStage | ChaosStage | FinalStage

  /** One transformation of the score; the explanatory text is left out. */
  datatype TraceStep = TraceStep(stage: Stage, source: string, impact: real, before: real, after: real, failedGates: seq<string>)

  datatype Trace = Trace(steps: seq<TraceStep>, finalScore: real, finalStatus: Status)

  /** The gates by name; gates of one name may be in any order. */
  function SortGates(gates: seq<GateResult>): (r: seq<GateResult>)
    ensures multiset(r) == multiset(gates)
  {
    if gates == [] then []
    else
      assert gates == [gates[0]] + gates[1..];
      InsertGate(gates[0], SortGates(gates[1..]))
  }

  function InsertGate(x: GateResult, s: seq<GateResult>): (r: seq<GateResult>)
    ensures multiset(r) == multiset(s) + multiset{x}
  {
    if s == [] then [x]
    else if Ids.Leq(x.name, s[0].name) then [x] + s
    else
      assert s == [s[0]] + s[1..];
      [s[0]] + InsertGate(x, s[1..])
  }

  predicate ByName(s: seq<GateResult>) {
    forall i, j :: 0 <= i < j < |s| ==> Ids.Leq(s[i].name, s[j].name)
  }

  lemma {:induction false} SortedByName(gates: seq<GateResult>)
    ensures ByName(SortGates(gates))
  {
    if gates != [] {
      SortedByName(gates[1..]);
      InsertedByName(gates[0], SortGates(gates[1..]));
    }
  }

  lemma {:induction false} InsertedByName(x: GateResult, s: seq<GateResult>)
    requires ByName(s)
    ensures ByName(InsertGate(x, s))
  {
    if s != [] {
      if Ids.Leq(x.name, s[0].name) {
        ConsByName(x, s);
      } else {
        Ids.LessTotal(x.name, s[0].name);
        var r := InsertGate(x, s[1..]);
        InsertedByName(x, s[1..]);
        SameMembers(r, s[1..] + [x]);
        ConsByName(s[0], r);
      }
    }
  }

  lemma ConsByName(x: GateResult, s: seq<GateResult>)
    requires ByName(s) && ((s != [] && Ids.Leq(x.name, s[0].name)) || forall g :: g in s ==> Ids.Leq(x.name, g.name))
    ensures ByName([x] + s)
  {
    forall j | 0 <= j < |s|
      ensures Ids.Leq(x.name, s[j].name)
    {
      if s[j] in s && !Ids.Leq(x.name, s[j].name) && j > 0 {
        LeqTrans(x.name, s[0].name, s[j].name);
      }
    }
  }

  lemma LeqTrans(a: string, b: string, c: string)
    requires Ids.Leq(a, b) && Ids.Leq(b, c)
    ensures Ids.Leq(a, c)
  {
    if Ids.Less(a, b) && Ids.Less(b, c) {
      Ids.LessTrans(a, b, c);
    }
  }

  // ----- Sums do not depend on the order

  lemma {:induction false} TallyRemove(cfg: TunedConfig, s: seq<GateResult>, i: nat)
    requires i < |s|
    ensures var r := s[..i] + s[i + 1..];
            && Total(cfg, s) == Total(cfg, r) + WeightOf(cfg, s[i].name)
            && Earned(cfg, s) == Earned(cfg, r) + (if s[i].passed then WeightOf(cfg, s[i].name) else 0)
  {
    var r := s[..i] + s[i + 1..];
    var n := |s| - 1;
    if i == n {
      assert r == s[..n];
    } else {
      TallyRemove(cfg, s[..n], i);
      assert r[..|r| - 1] == s[..n][..i] + s[..n][i + 1..];
    }
  }

  lemma WithoutOne<T>(s: seq<T>, i: nat)
    requires i < |s|
    ensures multiset(s[..i] + s[i + 1..]) == multiset(s) - multiset{s[i]}
  {
    assert s == s[..i] + [s[i]] + s[i + 1..];
  }

  /** Taking the last gate out of `a`, and the same gate out of `b`, leaves permutations. */
  lemma RemoveOne(a: seq<GateResult>, b: seq<GateResult>) returns (i: nat)
    requires multiset(a) == multiset(b) && a != []
    ensures i < |b| && b[i] == a[|a| - 1]
    ensures multiset(a[..|a| - 1]) == multiset(b[..i] + b[i + 1..])
  {
    var n := |a| - 1;
    assert a[n] in multiset(a);
    i :| 0 <= i < |b| && b[i] == a[n];
    WithoutOne(a, n);
    assert a[..n] + a[n + 1..] == a[..n];
    WithoutOne(b, i);
  }

  /** Permuting the gates changes neither sum. */
  lemma {:induction false} TallyPermutes(cfg: TunedConfig, a: seq<GateResult>, b: seq<GateResult>)
    requires multiset(a) == multiset(b)
    ensures Total(cfg, a) == Total(cfg, b) && Earned(cfg, a) == Earned(cfg, b)
    decreases |a|
  {
    if a == [] {
      assert |multiset(b)| == |b| == 0;
    } else {
      var i := RemoveOne(a, b);
      TallyPermutes(cfg, a[..|a| - 1], b[..i] + b[i + 1..]);
      TallyRemove(cfg, b, i);
    }
  }

  lemma HardFailPermutes(cfg: TunedConfig, a: seq<GateResult>, b: seq<GateResult>)
    requires multiset(a) == multiset(b)
    ensures HardFailed(cfg, a) <==> HardFailed(cfg, b)
  {
    SameMembers(a, b);
  }

  lemma SameMembers(a: seq<GateResult>, b: seq<GateResult>)
    requires multiset(a) == multiset(b)
    ensures forall g :: g in a <==> g in b
  {
    assert forall g :: g in a <==> g in multiset(a);
    assert forall g :: g in b <==> g in multiset(b);
  }

  // ----- Building

  function FailedNames(gates: seq<GateResult>): seq<string> {
    if gates == [] then []
    else if gates[|gates| - 1].passed then FailedNames(gates[..|gates| - 1])
    else FailedNames(gates[..|gates| - 1]) + [gates[|gates| - 1].name]
  }

  /** A step that takes the score from one value to another. */
  function Move(stage: Stage, source: string, before: real, after: real): TraceStep {
    TraceStep(stage, source, after - before, before, after, [])
  }

  function CapSteps(score: real, hard: bool): seq<TraceStep> {
    if hard && score > 60.0 then [Move(HardFailStage, "hard_fail_gates", score, 60.0)] else []
  }

  function ChaosSteps(score: real, chaos: Option<Chaos>): seq<TraceStep> {
    if chaos.Some? && chaos.value.active then
      [Move(ChaosStage, chaos.value.mode, score, AfterChaos(DefaultTunedConfig(), score, chaos))]
    else []
  }

  /** The steps that a tally of the gates leads to. */
  function StepsFrom(score: real, failed: seq<string>, hard: bool, cert: Option<Certification>, chaos: Option<Chaos>, final: real): seq<TraceStep> {
    var first := [TraceStep(GatesStage, "all_gates", score - 100.0, 100.0, score, failed)];
    if NonDeterministic(cert) then first + [Move(CertificationStage, "determinism", score, 0.0)]
    else
      var capped := Capped(score, hard);
      first + CapSteps(score, hard) + ChaosSteps(capped, chaos)
      + [TraceStep(FinalStage, "policy_engine", 0.0, AfterChaos(DefaultTunedConfig(), capped, chaos), final, [])]
  }

  /** The trace of a decision: the gates tallied under the default configuration, the failed ones by name. */
  function TraceOf(gates: seq<GateResult>, cert: Option<Certification>, chaos: Option<Chaos>, d: Decision): Trace {
    var cfg := DefaultTunedConfig();
    var score := GateScore(Total(cfg, gates), Earned(cfg, gates));
    Trace(StepsFrom(score, FailedNames(SortGates(gates)), HardFailed(cfg, gates), cert, chaos, d.score), d.score, d.status)
  }

  method BuildTrace(gates: seq<GateResult>, cert: Option<Certification>, chaos: Option<Chaos>, d: Decision) returns (t: Trace)
    ensures t == TraceOf(gates, cert, chaos, d)
  {
    ghost var cfg := DefaultTunedConfig();
    var sorted := SortGates(gates);
    var totalWeight, earnedWeight, hardFailTriggered, failedGates := TallySorted(sorted);
    TallyPermutes(cfg, sorted, gates);
    HardFailPermutes(cfg, sorted, gates);
    var score := 0.0;
    if totalWeight > 0 {
      score := (earnedWeight as real / totalWeight as real) * 100.0;
    }
    var steps := FinishTrace(score, failedGates, hardFailTriggered, cert, chaos, d.score);
    t := Trace(steps, d.score, d.status);
  }

  /** The trace's own loop over the gates, with its own copy of the default weights. */
  method TallySorted(sorted: seq<GateResult>) returns (total: int, earned: int, hard: bool, failedGates: seq<string>)
    ensures total == Total(DefaultTunedConfig(), sorted) && earned == Earned(DefaultTunedConfig(), sorted)
    ensures hard == HardFailed(DefaultTunedConfig(), sorted) && failedGates == FailedNames(sorted)
  {
    ghost var cfg := DefaultTunedConfig();
    total, earned, hard, failedGates := 0, 0, false, [];
    for i := 0 to |sorted|
      invariant total == Total(cfg, sorted[..i]) && earned == Earned(cfg, sorted[..i])
      invariant hard <==> HardFailed(cfg, sorted[..i])
      invariant failedGates == FailedNames(sorted[..i])
    {
      var g := sorted[i];
      assert sorted[..i + 1][..i] == sorted[..i] && sorted[..i + 1] == sorted[..i] + [g];
      var w := TraceWeight(g.name);
      total := total + w;
      if g.passed {
        earned := earned + w;
      } else {
        failedGates := failedGates + [g.name];
        if g.name in DefaultHardFail() && DefaultHardFail()[g.name] {
          hard := true;
        }
      }
    }
    assert sorted[..|sorted|] == sorted;
  }

  /** A missing weight reads as zero, and zero stands for ten. */
  function TraceWeight(name: string): (w: int)
    ensures w == WeightOf(DefaultTunedConfig(), name)
  {
    var w := if name in DefaultWeights() then DefaultWeights()[name] else 0;
    if w == 0 then 10 else w
  }

  method AddChaos(steps0: seq<TraceStep>, before: real, chaos: Chaos) returns (steps: seq<TraceStep>, score: real)
    requires chaos.active
    ensures score == AfterChaos(DefaultTunedConfig(), before, Some(chaos)) && steps == steps0 + ChaosSteps(before, Some(chaos))
  {
    var penalty := if chaos.mode in DefaultPenalties() then DefaultPenalties()[chaos.mode] else 0.0;
    score := before - penalty;
    if score < 0.0 {
      score := 0.0;
    }
    steps := steps0 + [TraceStep(ChaosStage, chaos.mode, score - before, before, score, [])];
  }

  /** The steps after the gates are tallied. */
  method FinishTrace(gateScore: real, failedGates: seq<string>, hard: bool, cert: Option<Certification>, chaos: Option<Chaos>, final: real)
    returns (steps: seq<TraceStep>)
    ensures steps == StepsFrom(gateScore, failedGates, hard, cert, chaos, final)
  {
    var score := gateScore;
    steps := [TraceStep(GatesStage, "all_gates", score - 100.0, 100.0, score, failedGates)];
    if cert.Some? && !cert.value.deterministic {
      return steps + [TraceStep(CertificationStage, "determinism", 0.0 - score, score, 0.0, [])];
    }
    if hard && score > 60.0 {
      steps := steps + [TraceStep(HardFailStage, "hard_fail_gates", 60.0 - score, score, 60.0, [])];
      score := 60.0;
    }
    if chaos.Some? && chaos.value.active {
      steps, score := AddChaos(steps, score, chaos.value);
    }
    steps := steps + [TraceStep(FinalStage, "policy_engine", 0.0, score, final, [])];
  }

  // ----- What a trace tells

  predicate HasStage(steps: seq<TraceStep>, stage: Stage) {
    exists step :: step in steps && step.stage == stage
  }

  function StageRank(stage: Stage): nat {
    match stage case GatesStage => 0 case CertificationStage => 1 case HardFailStage => 2 case ChaosStage => 3 case FinalStage => 4
  }

  /** Every stage at most once, and in this order. */
  predicate StagesInOrder(steps: seq<TraceStep>) {
    forall i, j :: 0 <= i < j < |steps| ==> StageRank(steps[i].stage) < StageRank(steps[j].stage)
  }

  /** Which stages there are. */
  predicate StagesTell(steps: seq<TraceStep>, hard: bool, cert: Option<Certification>, chaos: Option<Chaos>) {
    var overruled := cert.Some? && !cert.value.deterministic;
    && StagesInOrder(steps) && steps != [] && steps[0].stage == GatesStage
    && (HasStage(steps, CertificationStage) <==> overruled)
    && (HasStage(steps, HardFailStage) <==> !overruled && hard && steps[0].after > 60.0)
    && (HasStage(steps, ChaosStage) <==> !overruled && chaos.Some? && chaos.value.active)
    && (HasStage(steps, FinalStage) <==> !overruled)
  }

  lemma StageNext(steps: seq<TraceStep>, s: TraceStep)
    requires StagesInOrder(steps) && steps != [] && StageRank(steps[|steps| - 1].stage) < StageRank(s.stage)
    ensures StagesInOrder(steps + [s])
    ensures forall stage :: HasStage(steps + [s], stage) <==> HasStage(steps, stage) || s.stage == stage
  {
    assert s in steps + [s];
    assert forall t :: t in steps ==> t in steps + [s];
  }

  lemma FirstStage(s: TraceStep)
    ensures StagesInOrder([s]) && forall stage :: HasStage([s], stage) <==> s.stage == stage
  {
    assert s in [s];
  }

  /** The stages so far: the gates, and of the others those named here. */
  ghost predicate Shows(steps: seq<TraceStep>, score: real, shown: set<Stage>, rank: nat) {
    && StagesInOrder(steps) && steps != [] && steps[0].stage == GatesStage && steps[0].after == score
    && (forall stage :: stage != GatesStage ==> (HasStage(steps, stage) <==> stage in shown))
    && StageRank(steps[|steps| - 1].stage) < rank
  }

  lemma ShowsMore(steps: seq<TraceStep>, score: real, shown: set<Stage>, s: TraceStep)
    requires Shows(steps, score, shown, StageRank(s.stage)) && s.stage != GatesStage
    ensures Shows(steps + [s], score, shown + {s.stage}, StageRank(s.stage) + 1)
  {
    StageNext(steps, s);
  }

  lemma CapShows(first: TraceStep, score: real, hard: bool)
    requires first.stage == GatesStage && first.after == score
    ensures Shows([first] + CapSteps(score, hard), score, if hard && score > 60.0 then {HardFailStage} else {}, 3)
  {
    FirstStage(first);
    if hard && score > 60.0 {
      ShowsMore([first], score, {}, Move(HardFailStage, "hard_fail_gates", score, 60.0));
    } else {
      assert [first] + [] == [first];
    }
  }

  lemma ChaosShows(steps: seq<TraceStep>, score: real, shown: set<Stage>, capped: real, chaos: Option<Chaos>)
    requires Shows(steps, score, shown, 3)
    ensures Shows(steps + ChaosSteps(capped, chaos), score,
                  shown + if chaos.Some? && chaos.value.active then {ChaosStage} else {}, 4)
  {
    if chaos.Some? && chaos.value.active {
      ShowsMore(steps, score, shown, ChaosSteps(capped, chaos)[0]);
    } else {
      assert steps + [] == steps && shown + {} == shown;
    }
  }

  /** The stages beside the gates, certification aside. */
  function Shown(capped: bool, chaotic: bool): set<Stage> {
    (if capped then {HardFailStage} else {}) + (if chaotic then {ChaosStage} else {})
  }

  lemma FinishedShows(steps: seq<TraceStep>, score: real, capped: bool, chaotic: bool, last: TraceStep,
                      hard: bool, cert: Option<Certification>, chaos: Option<Chaos>)
    requires Shows(steps, score, Shown(capped, chaotic), 4) && last.stage == FinalStage && !NonDeterministic(cert)
    requires capped == (hard && score > 60.0) && chaotic == (chaos.Some? && chaos.value.active)
    ensures StagesTell(steps + [last], hard, cert, chaos)
  {
    ShowsMore(steps, score, Shown(capped, chaotic), last);
  }

  lemma OverruledShows(first: TraceStep, last: TraceStep, hard: bool, cert: Option<Certification>, chaos: Option<Chaos>)
    requires first.stage == GatesStage && last.stage == CertificationStage && NonDeterministic(cert)
    ensures StagesTell([first] + [last], hard, cert, chaos)
  {
    FirstStage(first);
    ShowsMore([first], first.after, {}, last);
  }

  lemma StepsTell(score: real, failed: seq<string>, hard: bool, cert: Option<Certification>, chaos: Option<Chaos>, final: real)
    ensures StagesTell(StepsFrom(score, failed, hard, cert, chaos, final), hard, cert, chaos)
  {
    var first := TraceStep(GatesStage, "all_gates", score - 100.0, 100.0, score, failed);
    if NonDeterministic(cert) {
      OverruledShows(first, Move(CertificationStage, "determinism", score, 0.0), hard, cert, chaos);
    } else {
      var capped := Capped(score, hard);
      var cap, chaotic := hard && score > 60.0, chaos.Some? && chaos.value.active;
      CapShows(first, score, hard);
      ChaosShows([first] + CapSteps(score, hard), score, if cap then {HardFailStage} else {}, capped, chaos);
      FinishedShows([first] + CapSteps(score, hard) + ChaosSteps(capped, chaos), score, cap, chaotic,
                    TraceStep(FinalStage, "policy_engine", 0.0, AfterChaos(DefaultTunedConfig(), capped, chaos), final, []),
                    hard, cert, chaos);
    }
  }

  // ----- The failed gates that a trace names

  lemma {:induction false} NamesAppend(a: seq<GateResult>, b: seq<GateResult>)
    ensures FailedNames(a + b) == FailedNames(a) + FailedNames(b)
  {
    if b == [] {
      assert a + b == a;
    } else {
      NamesAppend(a, b[..|b| - 1]);
      assert (a + b)[..|a + b| - 1] == a + b[..|b| - 1];
    }
  }

  lemma NamesOfOne(g: GateResult)
    ensures FailedNames([g]) == if g.passed then [] else [g.name]
  {
    assert [g][..0] == [];
  }

  lemma NamesAround(a: seq<GateResult>, g: GateResult, b: seq<GateResult>)
    ensures FailedNames(a + [g] + b) == FailedNames(a) + FailedNames([g]) + FailedNames(b)
  {
    NamesAppend(a + [g], b);
    NamesAppend(a, [g]);
  }

  lemma TakenOut<T>(a: seq<T>, m: seq<T>, b: seq<T>)
    ensures multiset(a + m + b) == multiset(a + b) + multiset(m)
  {
  }

  lemma NamesRemove(s: seq<GateResult>, i: nat)
    requires i < |s|
    ensures multiset(FailedNames(s))
            == multiset(FailedNames(s[..i] + s[i + 1..])) + multiset(FailedNames([s[i]]))
  {
    var a, b := s[..i], s[i + 1..];
    assert s == a + [s[i]] + b;
    NamesAround(a, s[i], b);
    NamesAppend(a, b);
    TakenOut(FailedNames(a), FailedNames([s[i]]), FailedNames(b));
  }

  lemma {:induction false} NamesPermute(a: seq<GateResult>, b: seq<GateResult>)
    requires multiset(a) == multiset(b)
    ensures multiset(FailedNames(a)) == multiset(FailedNames(b))
    decreases |a|
  {
    if a == [] {
      assert |multiset(b)| == |b| == 0;
    } else {
      var i := RemoveOne(a, b);
      NamesPermute(a[..|a| - 1], b[..i] + b[i + 1..]);
      NamesRemove(b, i);
      NamesOfOne(b[i]);
    }
  }

  lemma {:induction false} NamesInOrder(s: seq<GateResult>)
    requires ByName(s)
    ensures Ids.Sorted(FailedNames(s))
    ensures forall k :: 0 <= k < |FailedNames(s)| ==> exists i :: 0 <= i < |s| && s[i].name == FailedNames(s)[k]
  {
    if s != [] {
      NamesInOrder(s[..|s| - 1]);
    }
  }

  lemma {:induction false} NamesAreReasons(gates: seq<GateResult>)
    ensures |FailedNames(gates)| == |FailureReasons(gates)|
    ensures forall k :: 0 <= k < |FailedNames(gates)| ==> FailureReasons(gates)[k] == FailedNames(gates)[k] + " failed"
  {
    if gates != [] {
      NamesAreReasons(gates[..|gates| - 1]);
    }
  }

  /** The same names as in the engine's reasons, each as often, in ascending order. */
  ghost predicate NamesTell(names: seq<string>, gates: seq<GateResult>) {
    && Ids.Sorted(names)
    && exists unsorted: seq<string> :: multiset(names) == multiset(unsorted) && |unsorted| == |FailureReasons(gates)|
                                       && forall k :: 0 <= k < |unsorted| ==> FailureReasons(gates)[k] == unsorted[k] + " failed"
  }

  lemma SortedNamesTell(gates: seq<GateResult>)
    ensures NamesTell(FailedNames(SortGates(gates)), gates)
  {
    SortedByName(gates);
    NamesInOrder(SortGates(gates));
    NamesPermute(SortGates(gates), gates);
    NamesAreReasons(gates);
  }

  /**
   A trace takes over the decision's score and status, names the gates that the engine's reasons
   name, and has exactly the stages that apply, in the order of the engine.
   */
  lemma TraceTells(gates: seq<GateResult>, cert: Option<Certification>, chaos: Option<Chaos>, d: Decision)
    ensures var t := TraceOf(gates, cert, chaos, d);
            && t.finalScore == d.score && t.finalStatus == d.status
            && StagesTell(t.steps, HardFailed(DefaultTunedConfig(), gates), cert, chaos)
            && NamesTell(t.steps[0].failedGates, gates)
  {
    var cfg := DefaultTunedConfig();
    SortedNamesTell(gates);
    StepsTell(GateScore(Total(cfg, gates), Earned(cfg, gates)), FailedNames(SortGates(gates)), HardFailed(cfg, gates), cert, chaos, d.score);
  }

  // ----- Replaying

  /** Up to a final step, every step moves the running score by its impact to its recorded score. */
  predicate Consistent(score: real, steps: seq<TraceStep>)
    decreases |steps|
  {
    steps == [] || steps[0].stage == FinalStage
    || (score + steps[0].impact == steps[0].after && Consistent(steps[0].after, steps[1..]))
  }

  /** The score that the steps before a final one arrive at. */
  function EndScore(score: real, steps: seq<TraceStep>): real
    decreases |steps|
  {
    if steps == [] || steps[0].stage == FinalStage then score else EndScore(steps[0].after, steps[1..])
  }

  predicate NoFinal(steps: seq<TraceStep>) {
    steps == [] || (steps[0].stage != FinalStage && NoFinal(steps[1..]))
  }

  lemma {:induction false} SnocStep(score: real, steps: seq<TraceStep>, s: TraceStep)
    requires Consistent(score, steps) && NoFinal(steps)
    requires s.stage != FinalStage ==> EndScore(score, steps) + s.impact == s.after
    ensures Consistent(score, steps + [s])
    ensures EndScore(score, steps + [s]) == if s.stage == FinalStage then EndScore(score, steps) else s.after
    ensures NoFinal(steps + [s]) <==> s.stage != FinalStage
    decreases |steps|
  {
    var t := steps + [s];
    if steps == [] {
      assert t[1..] == [];
    } else {
      assert t[1..] == steps[1..] + [s];
      SnocStep(steps[0].after, steps[1..], s);
    }
  }

  /** The trace so far: consistent, without a final step, and at the given score. */
  ghost predicate Open(steps: seq<TraceStep>, score: real) {
    steps != [] && steps[0].before == 100.0 && Consistent(100.0, steps) && EndScore(100.0, steps) == score && NoFinal(steps)
  }

  lemma OpenFirst(s: TraceStep, score: real)
    requires s.stage != FinalStage && s.before == 100.0 && s.after == score && 100.0 + s.impact == score
    ensures Open([s], score)
  {
    assert [s][1..] == [];
    assert Consistent(score, []) && EndScore(score, []) == score && NoFinal([]);
  }

  lemma OpenMove(steps: seq<TraceStep>, stage: Stage, source: string, before: real, after: real)
    requires Open(steps, before) && stage != FinalStage
    ensures Open(steps + [Move(stage, source, before, after)], after)
  {
    SnocStep(100.0, steps, Move(stage, source, before, after));
  }

  lemma OpenCap(steps: seq<TraceStep>, score: real, hard: bool)
    requires Open(steps, score)
    ensures Open(steps + CapSteps(score, hard), Capped(score, hard))
  {
    if hard && score > 60.0 {
      OpenMove(steps, HardFailStage, "hard_fail_gates", score, 60.0);
    } else {
      assert steps + [] == steps;
    }
  }

  lemma OpenChaos(steps: seq<TraceStep>, score: real, chaos: Option<Chaos>)
    requires Open(steps, score)
    ensures Open(steps + ChaosSteps(score, chaos), AfterChaos(DefaultTunedConfig(), score, chaos))
  {
    if chaos.Some? && chaos.value.active {
      OpenMove(steps, ChaosStage, chaos.value.mode, score, AfterChaos(DefaultTunedConfig(), score, chaos));
    } else {
      assert steps + [] == steps;
    }
  }

  /** The steps are consistent, and what they arrive at does not depend on the recorded score. */
  lemma StepsArrive(score: real, failed: seq<string>, hard: bool, cert: Option<Certification>, chaos: Option<Chaos>, final: real)
    ensures var steps := StepsFrom(score, failed, hard, cert, chaos, final);
            && steps != [] && steps[0].before == 100.0 && Consistent(100.0, steps)
            && EndScore(100.0, steps) == if NonDeterministic(cert) then 0.0 else AfterChaos(DefaultTunedConfig(), Capped(score, hard), chaos)
  {
    var first := [TraceStep(GatesStage, "all_gates", score - 100.0, 100.0, score, failed)];
    OpenFirst(first[0], score);
    if NonDeterministic(cert) {
      OpenMove(first, CertificationStage, "determinism", score, 0.0);
    } else {
      var capped := Capped(score, hard);
      OpenCap(first, score, hard);
      OpenChaos(first + CapSteps(score, hard), capped, chaos);
      var last := AfterChaos(DefaultTunedConfig(), capped, chaos);
      SnocStep(100.0, first + CapSteps(score, hard) + ChaosSteps(capped, chaos),
               TraceStep(FinalStage, "policy_engine", 0.0, last, final, []));
    }
  }

  /** What replaying accepts: a trace with steps, consistent from its first score, that ends at the recorded one. */
  predicate Replays(t: Trace) {
    t.steps != [] && Consistent(t.steps[0].before, t.steps) && EndScore(t.steps[0].before, t.steps) == t.finalScore
  }

  method Replay(t: Trace) returns (ok: bool)
    ensures ok <==> Replays(t)
  {
    if |t.steps| == 0 {
      return false;
    }
    var start := t.steps[0].before;
    var score := start;
    var i := 0;
    while i < |t.steps| && t.steps[i].stage != FinalStage
      invariant 0 <= i <= |t.steps|
      invariant Consistent(start, t.steps) <==> Consistent(score, t.steps[i..])
      invariant EndScore(start, t.steps) == EndScore(score, t.steps[i..])
    {
      var step := t.steps[i];
      assert t.steps[i..][1..] == t.steps[i + 1..];
      if step.after != score + step.impact {
        return false;
      }
      score := step.after;
      i := i + 1;
    }
    return score == t.finalScore;
  }

  /** The trace of any decision whatsoever replays exactly when its score is the default configuration's. */
  lemma AuditIsExact(gates: seq<GateResult>, cert: Option<Certification>, chaos: Option<Chaos>, d: Decision)
    ensures Replays(TraceOf(gates, cert, chaos, d)) <==> d.score == Score(DefaultTunedConfig(), gates, cert, chaos)
  {
    var cfg := DefaultTunedConfig();
    StepsArrive(GateScore(Total(cfg, gates), Earned(cfg, gates)), FailedNames(SortGates(gates)), HardFailed(cfg, gates), cert, chaos, d.score);
  }

  /** Hence the trace of every default-configuration decision replays, whatever the gates, certificate and chaos. */
  method DefaultDecisionsReplay(gates: seq<GateResult>, cert: Option<Certification>, chaos: Option<Chaos>) returns (ok: bool)
    ensures ok
  {
    var d := Evaluate(DefaultTunedConfig(), gates, cert, chaos);
    var t := BuildTrace(gates, cert, chaos, d);
    AuditIsExact(gates, cert, chaos, d);
    ok := Replay(t);
  }
}
