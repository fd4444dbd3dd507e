/** What an event list says of the nodes that ran: which events there are, of which outcome, and in which order. */
module Reports {
  import opened Ids
  import opened CausalGraph

  predicate IsEvent(e: Event, id: Id, eventType: string) {
    e.nodeID == id && e.eventType == eventType
  }

  /** The node has one event of this type, the one at `i`. */
  ghost predicate OnlyAt(evs: seq<Event>, id: Id, eventType: string, i: int) {
    0 <= i < |evs| && forall k :: 0 <= k < |evs| ==> (IsEvent(evs[k], id, eventType) <==> k == i)
  }

  ghost predicate Never(evs: seq<Event>, id: Id, eventType: string) {
    forall k :: 0 <= k < |evs| ==> !IsEvent(evs[k], id, eventType)
  }

  /** The node's one event of this type stands at `i` and carries the node's job, this status and this payload. */
  ghost predicate EventAt(evs: seq<Event>, n: Node, eventType: string, status: string, payload: string, i: int) {
    OnlyAt(evs, n.id, eventType, i) && evs[i].jobID == n.jobID && evs[i].status == status && evs[i].payload == payload
  }

  /** A job node has its one event and no other. */
  ghost predicate JobReported(evs: seq<Event>, n: Node, eventType: string, status: string) {
    exists i :: EventAt(evs, n, eventType, status, "", i) && evs[i].stepID == ""
                && forall k :: 0 <= k < |evs| && evs[k].nodeID == n.id ==> k == i
  }

  ghost predicate StartedAt(evs: seq<Event>, n: Node, i: int) {
    EventAt(evs, n, "CI_STEP_STARTED", "RUNNING", "", i)
  }

  /** The step's one finished event: successful exactly when the exit code is zero, with the output either way. */
  ghost predicate FinishedAt(evs: seq<Event>, n: Node, out: ShellResult, j: int) {
    EventAt(evs, n, "CI_STEP_FINISHED", if out.exitCode == 0 then "SUCCESS" else "FAILED", out.output, j)
  }

  ghost predicate ArtifactAt(evs: seq<Event>, n: Node, out: ShellResult, k: int) {
    EventAt(evs, n, "CI_ARTIFACT", "CREATED", "{\"output\":\"" + out.output + "\"}", k)
  }

  predicate StepEventsOnly(evs: seq<Event>, n: Node) {
    forall k :: 0 <= k < |evs| && evs[k].nodeID == n.id ==>
      evs[k].stepID == n.stepID && evs[k].eventType in {"CI_STEP_STARTED", "CI_STEP_FINISHED", "CI_ARTIFACT"}
  }

  /** One started event, later one finished event, and after that an artifact exactly when the command succeeded. */
  ghost predicate StepReported(evs: seq<Event>, n: Node, out: ShellResult) {
    && StepEventsOnly(evs, n)
    && (exists i, j :: i < j && StartedAt(evs, n, i) && FinishedAt(evs, n, out, j))
    && (if out.exitCode == 0 then exists j, k :: j < k && FinishedAt(evs, n, out, j) && ArtifactAt(evs, n, out, k)
        else Never(evs, n.id, "CI_ARTIFACT"))
  }

  ghost predicate Silent(evs: seq<Event>, id: Id) {
    forall k :: 0 <= k < |evs| ==> evs[k].nodeID != id
  }

  /** What a list says of a node that was run, its command having been given to the shell in its directory. */
  ghost predicate Reported(evs: seq<Event>, n: Node, shell: Shell) {
    match n.nodeType
    case JobStart => JobReported(evs, n, "CI_JOB_STARTED", "RUNNING")
    case JobEnd => JobReported(evs, n, "CI_JOB_FINISHED", "SUCCESS")
    case StepRun => StepReported(evs, n, shell(n.action.command, n.action.workingDir))
    case CacheNode | ArtifactNode => Silent(evs, n.id)
  }

  /** Every event of `d` comes before every event of `x`. */
  ghost predicate AllBefore(evs: seq<Event>, d: Id, x: Id) {
    forall i, j :: 0 <= i < |evs| && 0 <= j < |evs| && evs[i].nodeID == d && evs[j].nodeID == x ==> i < j
  }

  /** The events come node by node in this order. */
  ghost predicate InOrderOf(evs: seq<Event>, order: seq<Id>) {
    && (forall k :: 0 <= k < |evs| ==> evs[k].nodeID in order)
    && forall p, q :: 0 <= p < q < |order| ==> AllBefore(evs, order[p], order[q])
  }

  // ----- One node's own events

  lemma StepOwnReport(n: Node, shell: Shell)
    requires n.nodeType == StepRun
    ensures Reported(ExecuteNode(n, shell), n, shell)
  {
    var out := shell(n.action.command, n.action.workingDir);
    var own := ExecuteNode(n, shell);
    assert |"CI_STEP_STARTED"| == 15 && |"CI_STEP_FINISHED"| == 16 && |"CI_ARTIFACT"| == 11;
    assert StartedAt(own, n, 0);
    assert FinishedAt(own, n, out, 1);
    if out.exitCode == 0 {
      assert ArtifactAt(own, n, out, 2);
    }
  }

  lemma OwnReport(n: Node, shell: Shell)
    ensures Reported(ExecuteNode(n, shell), n, shell)
    ensures forall k :: 0 <= k < |ExecuteNode(n, shell)| ==> ExecuteNode(n, shell)[k].nodeID == n.id
  {
    match n.nodeType
    case JobStart => assert EventAt(ExecuteNode(n, shell), n, "CI_JOB_STARTED", "RUNNING", "", 0);
    case JobEnd => assert EventAt(ExecuteNode(n, shell), n, "CI_JOB_FINISHED", "SUCCESS", "", 0);
    case StepRun => StepOwnReport(n, shell);
    case _ =>
  }

  // ----- Inside a longer list

  lemma PaddedAt(pre: seq<Event>, own: seq<Event>, post: seq<Event>, n: Node, eventType: string, status: string, payload: string, i: int)
    requires Silent(pre, n.id) && Silent(post, n.id) && EventAt(own, n, eventType, status, payload, i)
    ensures EventAt(pre + own + post, n, eventType, status, payload, |pre| + i) && (pre + own + post)[|pre| + i] == own[i]
  {
  }

  lemma PaddedStarted(pre: seq<Event>, own: seq<Event>, post: seq<Event>, n: Node, i: int)
    requires Silent(pre, n.id) && Silent(post, n.id) && StartedAt(own, n, i)
    ensures StartedAt(pre + own + post, n, |pre| + i)
  {
    PaddedAt(pre, own, post, n, "CI_STEP_STARTED", "RUNNING", "", i);
  }

  lemma PaddedFinished(pre: seq<Event>, own: seq<Event>, post: seq<Event>, n: Node, out: ShellResult, j: int)
    requires Silent(pre, n.id) && Silent(post, n.id) && FinishedAt(own, n, out, j)
    ensures FinishedAt(pre + own + post, n, out, |pre| + j)
  {
    PaddedAt(pre, own, post, n, "CI_STEP_FINISHED", if out.exitCode == 0 then "SUCCESS" else "FAILED", out.output, j);
  }

  lemma PaddedArtifact(pre: seq<Event>, own: seq<Event>, post: seq<Event>, n: Node, out: ShellResult, k: int)
    requires Silent(pre, n.id) && Silent(post, n.id) && ArtifactAt(own, n, out, k)
    ensures ArtifactAt(pre + own + post, n, out, |pre| + k)
  {
    PaddedAt(pre, own, post, n, "CI_ARTIFACT", "CREATED", "{\"output\":\"" + out.output + "\"}", k);
  }

  lemma PaddedFrom(pre: seq<Event>, own: seq<Event>, post: seq<Event>, id: Id)
    requires Silent(pre, id) && Silent(post, id)
    ensures var evs := pre + own + post;
            forall k :: 0 <= k < |evs| && evs[k].nodeID == id ==> |pre| <= k < |pre| + |own| && evs[k] == own[k - |pre|]
  {
  }

  lemma PaddedNever(pre: seq<Event>, own: seq<Event>, post: seq<Event>, id: Id, eventType: string)
    requires Silent(pre, id) && Silent(post, id) && Never(own, id, eventType)
    ensures Never(pre + own + post, id, eventType)
  {
  }

  lemma PaddedTypes(pre: seq<Event>, own: seq<Event>, post: seq<Event>, n: Node)
    requires Silent(pre, n.id) && Silent(post, n.id) && StepEventsOnly(own, n)
    ensures StepEventsOnly(pre + own + post, n)
  {
    PaddedFrom(pre, own, post, n.id);
  }

  lemma PaddedStep(pre: seq<Event>, own: seq<Event>, post: seq<Event>, n: Node, out: ShellResult)
    requires Silent(pre, n.id) && Silent(post, n.id) && StepReported(own, n, out)
    ensures StepReported(pre + own + post, n, out)
  {
    PaddedTypes(pre, own, post, n);
    var i, j :| i < j && StartedAt(own, n, i) && FinishedAt(own, n, out, j);
    PaddedStarted(pre, own, post, n, i);
    PaddedFinished(pre, own, post, n, out, j);
    if out.exitCode == 0 {
      var j', k :| j' < k && FinishedAt(own, n, out, j') && ArtifactAt(own, n, out, k);
      PaddedFinished(pre, own, post, n, out, j');
      PaddedArtifact(pre, own, post, n, out, k);
    } else {
      PaddedNever(pre, own, post, n.id, "CI_ARTIFACT");
    }
  }

  lemma PaddedJob(pre: seq<Event>, own: seq<Event>, post: seq<Event>, n: Node, eventType: string, status: string)
    requires Silent(pre, n.id) && Silent(post, n.id) && JobReported(own, n, eventType, status)
    ensures JobReported(pre + own + post, n, eventType, status)
  {
    PaddedFrom(pre, own, post, n.id);
    var i :| EventAt(own, n, eventType, status, "", i) && own[i].stepID == ""
             && forall k :: 0 <= k < |own| && own[k].nodeID == n.id ==> k == i;
    PaddedAt(pre, own, post, n, eventType, status, "", i);
  }

  lemma PaddedReport(pre: seq<Event>, own: seq<Event>, post: seq<Event>, n: Node, shell: Shell)
    requires Silent(pre, n.id) && Silent(post, n.id) && Reported(own, n, shell)
    ensures Reported(pre + own + post, n, shell)
  {
    match n.nodeType
    case JobStart => PaddedJob(pre, own, post, n, "CI_JOB_STARTED", "RUNNING");
    case JobEnd => PaddedJob(pre, own, post, n, "CI_JOB_FINISHED", "SUCCESS");
    case StepRun => PaddedStep(pre, own, post, n, shell(n.action.command, n.action.workingDir));
    case _ => PaddedFrom(pre, own, post, n.id);
  }

  // ----- The events of a list of nodes

  lemma {:induction false} EventsAreOfNodes(g: Graph, order: seq<Id>, shell: Shell)
    requires WellKeyed(g)
    ensures forall k :: 0 <= k < |EventsOf(g, order, shell)| ==>
              EventsOf(g, order, shell)[k].nodeID in order && EventsOf(g, order, shell)[k].nodeID in g.nodes
  {
    if order != [] {
      var n := |order| - 1;
      EventsAreOfNodes(g, order[..n], shell);
      assert order == order[..n] + [order[n]];
      if order[n] in g.nodes {
        OwnReport(g.nodes[order[n]], shell);
      }
    }
  }

  lemma OthersAreSilent(g: Graph, order: seq<Id>, shell: Shell, id: Id)
    requires WellKeyed(g) && id !in order
    ensures Silent(EventsOf(g, order, shell), id)
  {
    EventsAreOfNodes(g, order, shell);
  }

  lemma EventsAround(g: Graph, order: seq<Id>, shell: Shell, p: nat)
    requires p < |order| && order[p] in g.nodes
    ensures EventsOf(g, order, shell)
            == EventsOf(g, order[..p], shell) + ExecuteNode(g.nodes[order[p]], shell) + EventsOf(g, order[p + 1..], shell)
  {
    var x := order[p];
    assert order == order[..p] + [x] + order[p + 1..];
    EventsOfAppend(g, order[..p] + [x], order[p + 1..], shell);
    assert (order[..p] + [x])[..p] == order[..p];
  }

  lemma PositionsApart(order: seq<Id>, p: nat)
    requires NoDup(order) && p < |order|
    ensures order[p] !in order[..p] && order[p] !in order[p + 1..]
  {
  }

  /** Running a list of distinct nodes reports each of them. */
  lemma NodeIsReported(g: Graph, order: seq<Id>, shell: Shell, p: nat)
    requires WellKeyed(g) && NoDup(order) && p < |order| && order[p] in g.nodes
    ensures Reported(EventsOf(g, order, shell), g.nodes[order[p]], shell)
  {
    var n := g.nodes[order[p]];
    PositionsApart(order, p);
    OthersAreSilent(g, order[..p], shell, order[p]);
    OthersAreSilent(g, order[p + 1..], shell, order[p]);
    OwnReport(n, shell);
    EventsAround(g, order, shell, p);
    PaddedReport(EventsOf(g, order[..p], shell), ExecuteNode(n, shell), EventsOf(g, order[p + 1..], shell), n, shell);
  }

  lemma SplitBefore(pre: seq<Event>, post: seq<Event>, d: Id, x: Id)
    requires Silent(pre, x) && Silent(post, d)
    ensures AllBefore(pre + post, d, x)
  {
  }

  lemma NodesInOrder(g: Graph, order: seq<Id>, shell: Shell)
    requires WellKeyed(g) && NoDup(order)
    ensures InOrderOf(EventsOf(g, order, shell), order)
  {
    EventsAreOfNodes(g, order, shell);
    forall p, q | 0 <= p < q < |order|
      ensures AllBefore(EventsOf(g, order, shell), order[p], order[q])
    {
      assert order == order[..q] + order[q..];
      DisjointParts(order[..q], order[q..]);
      assert order[q..][0] == order[q] && order[..q][p] == order[p];
      EventsOfAppend(g, order[..q], order[q..], shell);
      OthersAreSilent(g, order[..q], shell, order[q]);
      OthersAreSilent(g, order[q..], shell, order[p]);
      SplitBefore(EventsOf(g, order[..q], shell), EventsOf(g, order[q..], shell), order[p], order[q]);
    }
  }
}
