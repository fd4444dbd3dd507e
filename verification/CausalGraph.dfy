/** Nodes of the causal graph, the events they produce, and the graph's dependency map. */
module CausalGraph {
  import opened Ids
  import opened Digraph

  datatype NodeType = JobStart | JobEnd | StepRun | CacheNode | ArtifactNode

  datatype Action = Action(command: string, workingDir: string)

  datatype Node = Node(id: Id, nodeType: NodeType, jobID: string, stepID: string, action: Action, dependencies: seq<Id>)

  datatype Graph = Graph(nodes: map<Id, Node>)

  /** Every node is stored under its own identifier. */
  ghost predicate WellKeyed(g: Graph) {
    forall id :: id in g.nodes ==> g.nodes[id].id == id
  }

  function DepsOf(g: Graph): Deps {
    map id | id in g.nodes :: g.nodes[id].dependencies
  }

  datatype Event = Event(nodeID: string, eventType: string, jobID: string, stepID: string, status: string, payload: string)

  /** What `sh -c` in a directory returns: its combined output and its exit code. */
  datatype ShellResult = ShellResult(output: string, exitCode: int)

  type Shell = (string, string) -> ShellResult

  /** `executeNode`; the shell is a function of the command and the directory. */
  function ExecuteNode(n: Node, shell: Shell): seq<Event> {
    match n.nodeType
    case JobStart => [Event(n.id, "CI_JOB_STARTED", n.jobID, "", "RUNNING", "")]
    case JobEnd => [Event(n.id, "CI_JOB_FINISHED", n.jobID, "", "SUCCESS", "")]
    case CacheNode | ArtifactNode => []
    case StepRun =>
      var out := shell(n.action.command, n.action.workingDir);
      var started := Event(n.id, "CI_STEP_STARTED", n.jobID, n.stepID, "RUNNING", "");
      if out.exitCode == 0 then
        [started,
         Event(n.id, "CI_STEP_FINISHED", n.jobID, n.stepID, "SUCCESS", out.output),
         Event(n.id, "CI_ARTIFACT", n.jobID, n.stepID, "CREATED", "{\"output\":\"" + out.output + "\"}")]
      else
        [started, Event(n.id, "CI_STEP_FINISHED", n.jobID, n.stepID, "FAILED", out.output)]
  }

  /** The events of a list of nodes, one node after the other. */
  function EventsOf(g: Graph, order: seq<Id>, shell: Shell): seq<Event> {
    if order == [] then []
    else EventsOf(g, order[..|order| - 1], shell)
         + (if order[|order| - 1] in g.nodes then ExecuteNode(g.nodes[order[|order| - 1]], shell) else [])
  }

  lemma {:induction false} EventsOfAppend(g: Graph, a: seq<Id>, b: seq<Id>, shell: Shell)
    ensures EventsOf(g, a + b, shell) == EventsOf(g, a, shell) + EventsOf(g, b, shell)
  {
    if b == [] {
      assert a + b == a;
    } else {
      var n := |b| - 1;
      EventsOfAppend(g, a, b[..n], shell);
      assert (a + b)[..|a + b| - 1] == a + b[..n];
    }
  }
}
