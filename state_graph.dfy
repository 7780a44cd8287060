/** The part of langgraph's StateGraph that the blog workflow uses: declaring
    nodes, edges and conditional edges, compiling, and invoking.

    The library itself is not part of this model. Everything in this module
    is a modelling assumption about it, chosen to match its documented
    behaviour:
    - START and END are the reserved names "__start__" and "__end__";
    - add_node rejects a name already declared and the reserved names;
    - add_edge rejects END as a source and START as a target, and the edge
      collection is a set (declaring an edge twice keeps one copy);
    - a source carries at most one conditional branch;
    - compile checks that every edge starts and ends at a declared node (or
      START/END) and that something leaves START; it does not check
      reachability;
    - invoke walks one node at a time: it resolves the single way out of the
      current node (a conditional branch asks its path function for a label
      and looks the label up), runs the node, and shallow-merges its update
      into the state; an unmapped label, a failing node, a node with no way
      out or with several ways out ends the walk with an error;
    - at most RecursionLimit nodes run in one invocation. */
module LangGraph {
  import opened Wrappers
  import opened BlogState

  const Start := "__start__"
  const End := "__end__"
  const RecursionLimit: nat := 25

  datatype Edge = Edge(source: string, target: string)

  /** A conditional edge: a path function and its label-to-node map. */
  datatype Branch<P> = Branch(path: P, ends: map<string, string>)

  /** What a StateGraph has accumulated: node bodies by name, unconditional
      edges in declaration order without repeats, and branches by source. */
  datatype GraphDef<N, P> = GraphDef(nodes: map<string, N>, edges: seq<Edge>, branches: map<string, Branch<P>>)

  function EmptyGraph<N, P>(): GraphDef<N, P> {
    GraphDef(map[], [], map[])
  }

  /** The rule a graph breaks when compile rejects it. */
  datatype Rule = UnknownSource | NoEntryPoint | UnknownTarget

  datatype GraphError =
    | NodeAlreadyPresent(name: string)
    | ReservedName(name: string)
    | EndAsSource
    | StartAsTarget
    | BranchAlreadyPresent(source: string)
    | InvalidGraph(rule: Rule)

  /** One call on the graph under construction: add_node, add_edge or
      add_conditional_edges. */
  datatype Decl<N, P> =
    | NodeDecl(name: string, body: N)
    | EdgeDecl(source: string, target: string)
    | BranchDecl(source: string, path: P, ends: map<string, string>)

  /** The graph after one declaration, or the error the call raises. */
  function Declare<N, P>(g: GraphDef<N, P>, d: Decl<N, P>): Result<GraphDef<N, P>, GraphError> {
    match d
    case NodeDecl(name, body) =>
      if name in g.nodes then Failure(NodeAlreadyPresent(name))
      else if name == Start || name == End then Failure(ReservedName(name))
      else Success(g.(nodes := g.nodes[name := body]))
    case EdgeDecl(source, target) =>
      if source == End then Failure(EndAsSource)
      else if target == Start then Failure(StartAsTarget)
      else if Edge(source, target) in g.edges then Success(g)
      else Success(g.(edges := g.edges + [Edge(source, target)]))
    case BranchDecl(source, path, ends) =>
      if source in g.branches then Failure(BranchAlreadyPresent(source))
      else Success(g.(branches := g.branches[source := Branch(path, ends)]))
  }

  /** The graph a sequence of calls leaves behind, and whether one raised. */
  datatype Built<N, P> = Built(graph: GraphDef<N, P>, outcome: Outcome<GraphError>)

  /** One declaration's effect: a raising call leaves the graph as it was. */
  function After<N, P>(g: GraphDef<N, P>, r: Result<GraphDef<N, P>, GraphError>): Built<N, P> {
    match r
    case Success(g') => Built(g', Pass)
    case Failure(e) => Built(g, Fail(e))
  }

  /** Declarations made in order, stopping at the first that raises. */
  function DeclareAll<N, P>(g: GraphDef<N, P>, ds: seq<Decl<N, P>>): Built<N, P>
    decreases |ds|
  {
    if ds == [] then Built(g, Pass)
    else match Declare(g, ds[0])
      case Failure(e) => Built(g, Fail(e))
      case Success(g') => DeclareAll(g', ds[1..])
  }

  /** The first declaration of a sequence decides whether the rest run. */
  lemma DeclareAllFirst<N, P>(g: GraphDef<N, P>, ds: seq<Decl<N, P>>)
    requires ds != []
    ensures var b := After(g, Declare(g, ds[0]));
      DeclareAll(g, ds) == if b.outcome.Fail? then b else DeclareAll(b.graph, ds[1..])
  {
  }

  /** Everything a declaration leaves in the graph stays there: nodes keep
      their bodies, edges and branches are never removed. */
  ghost predicate Extends<N, P>(g: GraphDef<N, P>, g': GraphDef<N, P>) {
    && (forall n :: n in g.nodes ==> n in g'.nodes && g'.nodes[n] == g.nodes[n])
    && (forall e :: e in g.edges ==> e in g'.edges)
    && (forall s :: s in g.branches ==> s in g'.branches && g'.branches[s] == g.branches[s])
  }

  lemma DeclareExtends<N, P>(g: GraphDef<N, P>, d: Decl<N, P>)
    ensures Declare(g, d).Success? ==> Extends(g, Declare(g, d).value)
  {
  }

  lemma {:induction false} DeclareAllExtends<N, P>(g: GraphDef<N, P>, ds: seq<Decl<N, P>>)
    ensures Extends(g, DeclareAll(g, ds).graph)
    decreases |ds|
  {
    if ds != [] {
      match Declare(g, ds[0])
      case Failure(e) =>
      case Success(g') =>
        DeclareExtends(g, ds[0]);
        DeclareAllExtends(g', ds[1..]);
    }
  }

  /** Every declared node name is fresh and not reserved, and edges are kept
      without repeats. */
  predicate Declarable<N, P>(g: GraphDef<N, P>) {
    && Start !in g.nodes && End !in g.nodes
    && (forall i, j :: 0 <= i < j < |g.edges| ==> g.edges[i] != g.edges[j])
  }

  /** Declarations keep the graph declarable: START and END never become
      nodes, and the edge collection behaves as a set. */
  lemma {:induction false} DeclarePreservesDeclarable<N, P>(g: GraphDef<N, P>, d: Decl<N, P>)
    requires Declarable(g)
    ensures Declare(g, d).Success? ==> Declarable(Declare(g, d).value)
  {
    if d.EdgeDecl? && Declare(g, d).Success? && Edge(d.source, d.target) !in g.edges {
      var es := Declare(g, d).value.edges;
      assert es == g.edges + [Edge(d.source, d.target)];
      forall i, j | 0 <= i < j < |es| ensures es[i] != es[j] {
        if j == |g.edges| {
          assert es[i] == g.edges[i];
        } else {
          assert es[i] == g.edges[i] && es[j] == g.edges[j];
        }
      }
    }
  }

  /** Declaring an edge a second time changes nothing. */
  lemma EdgeDeclIdempotent<N, P>(g: GraphDef<N, P>, source: string, target: string)
    requires Declare(g, EdgeDecl(source, target)).Success?
    ensures Declare(Declare(g, EdgeDecl(source, target)).value, EdgeDecl(source, target))
      == Declare(g, EdgeDecl(source, target))
  {
    assert Edge(source, target) in Declare(g, EdgeDecl(source, target)).value.edges;
  }

  // ----- compile -----

  predicate SourcesKnown<N, P>(g: GraphDef<N, P>) {
    && (forall e :: e in g.edges ==> e.source == Start || e.source in g.nodes)
    && (forall s :: s in g.branches ==> s == Start || s in g.nodes)
  }

  predicate HasEntryPoint<N, P>(g: GraphDef<N, P>) {
    (exists e :: e in g.edges && e.source == Start) || Start in g.branches
  }

  predicate TargetsKnown<N, P>(g: GraphDef<N, P>) {
    && (forall e :: e in g.edges ==> e.target == End || e.target in g.nodes)
    && (forall s, l :: s in g.branches && l in g.branches[s].ends ==>
          g.branches[s].ends[l] == End || g.branches[s].ends[l] in g.nodes)
  }

  /** What compile accepts. */
  predicate WellFormed<N, P>(g: GraphDef<N, P>) {
    SourcesKnown(g) && HasEntryPoint(g) && TargetsKnown(g)
  }

  /** compile(): the graph itself when it is well formed, otherwise the first
      rule it breaks, checked in the order sources, entry point, targets. */
  function Validate<N, P>(g: GraphDef<N, P>): (r: Result<GraphDef<N, P>, GraphError>)
    ensures r.Success? <==> WellFormed(g)
    ensures r.Success? ==> r.value == g
    ensures r.Failure? ==> r.error.InvalidGraph?
    ensures r == Failure(InvalidGraph(NoEntryPoint)) <==> SourcesKnown(g) && !HasEntryPoint(g)
  {
    if !SourcesKnown(g) then Failure(InvalidGraph(UnknownSource))
    else if !HasEntryPoint(g) then Failure(InvalidGraph(NoEntryPoint))
    else if !TargetsKnown(g) then Failure(InvalidGraph(UnknownTarget))
    else Success(g)
  }

  /** An edge that points at an undeclared node makes compile fail. */
  lemma DanglingEdgeRejected<N, P>(g: GraphDef<N, P>, e: Edge)
    requires e in g.edges
    requires e.target != End && e.target !in g.nodes
    ensures Validate(g).Failure?
  {
  }

  /** Nothing declared: compile fails for want of an entry point. */
  lemma EmptyGraphRejected<N, P>()
    ensures Validate(EmptyGraph<N, P>()) == Failure(InvalidGraph(NoEntryPoint))
  {
  }

  // ----- invoke -----

  /** What running a node gives: the keys it returns, or the exception it
      raises. */
  datatype NodeResult = Updated(update: State) | Raised(cause: string)

  datatype WalkError =
    | RoutingError(node: string, choice: string)
    | NodeFailed(node: string, cause: string)
    | DeadEnd(node: string)
    | FanOut(node: string)
    | UnknownNode(node: string)
    | RecursionLimitReached

  /** The end of an invocation: the final state, or the error with the state
      accumulated so far; either way the nodes that ran, in order. */
  datatype Run =
    | Finished(state: State, trace: seq<string>)
    | Aborted(error: WalkError, state: State, trace: seq<string>)

  /** The behaviour of the callables the graph was declared with: a node body
      run on a state, and a path function asked for a label. */
  datatype Library<!N, !P> = Library(run: (N, State) -> NodeResult, decide: (P, State) -> string)

  /** The targets of the unconditional edges leaving `at`, in declaration
      order. */
  function Targets(edges: seq<Edge>, at: string): seq<string> {
    if edges == [] then []
    else (if edges[0].source == at then [edges[0].target] else []) + Targets(edges[1..], at)
  }

  /** The targets listed are exactly those of the edges leaving `at`. */
  lemma {:induction false} TargetsShape(edges: seq<Edge>, at: string)
    ensures forall t :: t in Targets(edges, at) <==> Edge(at, t) in edges
  {
    if edges != [] {
      TargetsShape(edges[1..], at);
      assert edges == [edges[0]] + edges[1..];
    }
  }

  /** Where the walk goes after `at`. */
  function NextNode<N, P>(g: GraphDef<N, P>, lib: Library<N, P>, at: string, state: State): Result<string, WalkError> {
    var targets := Targets(g.edges, at);
    if at in g.branches then
      if targets != [] then Failure(FanOut(at))
      else
        var b := g.branches[at];
        var choice := lib.decide(b.path, state);
        if choice in b.ends then Success(b.ends[choice]) else Failure(RoutingError(at, choice))
    else if targets == [] then Failure(DeadEnd(at))
    else if |targets| > 1 then Failure(FanOut(at))
    else Success(targets[0])
  }

  function Prepend(node: string, r: Run): Run {
    r.(trace := [node] + r.trace)
  }

  /** The walk from just after `at` with at most `fuel` more nodes to run. */
  function Walk<N, P>(g: GraphDef<N, P>, lib: Library<N, P>, at: string, state: State, fuel: nat): Run
    decreases fuel
  {
    match NextNode(g, lib, at, state)
    case Failure(e) => Aborted(e, state, [])
    case Success(next) =>
      if next == End then Finished(state, [])
      else if next !in g.nodes then Aborted(UnknownNode(next), state, [])
      else if fuel == 0 then Aborted(RecursionLimitReached, state, [])
      else match lib.run(g.nodes[next], state)
        case Raised(cause) => Aborted(NodeFailed(next, cause), state, [next])
        case Updated(u) => Prepend(next, Walk(g, lib, next, Merge(state, u), fuel - 1))
  }

  /** One step of the walk, when the way out of `at` leads to a node. */
  lemma WalkStep<N, P>(g: GraphDef<N, P>, lib: Library<N, P>, at: string, state: State, fuel: nat, next: string)
    requires NextNode(g, lib, at, state) == Success(next)
    requires next != End && next in g.nodes && fuel > 0
    ensures Walk(g, lib, at, state, fuel) ==
      match lib.run(g.nodes[next], state)
      case Raised(cause) => Aborted(NodeFailed(next, cause), state, [next])
      case Updated(u) => Prepend(next, Walk(g, lib, next, Merge(state, u), fuel - 1))
  {
  }

  /** invoke(input). */
  function Invoke<N, P>(g: GraphDef<N, P>, lib: Library<N, P>, input: State): Run {
    Walk(g, lib, Start, input, RecursionLimit)
  }

  // ----- topology -----

  /** `b` is one step away from `a`, over an edge or a branch target. */
  predicate Step<N, P>(g: GraphDef<N, P>, a: string, b: string) {
    b in Targets(g.edges, a) || (a in g.branches && b in g.branches[a].ends.Values)
  }

  predicate IsPath<N, P>(g: GraphDef<N, P>, p: seq<string>) {
    |p| >= 1 && forall i :: 0 <= i < |p| - 1 ==> Step(g, p[i], p[i + 1])
  }

  ghost predicate Reachable<N, P>(g: GraphDef<N, P>, a: string, b: string) {
    exists p :: IsPath(g, p) && p[0] == a && p[|p| - 1] == b
  }

  /** A path's first nodes, and its last nodes, form paths. */
  lemma SubPaths<N, P>(g: GraphDef<N, P>, p: seq<string>, i: nat)
    requires IsPath(g, p) && i < |p|
    ensures IsPath(g, p[..i + 1]) && IsPath(g, p[i..])
  {
    var before, after := p[..i + 1], p[i..];
    forall k | 0 <= k < |before| - 1 ensures Step(g, before[k], before[k + 1]) {
      assert before[k] == p[k] && before[k + 1] == p[k + 1];
    }
    forall k | 0 <= k < |after| - 1 ensures Step(g, after[k], after[k + 1]) {
      assert after[k] == p[i + k] && after[k + 1] == p[i + k + 1];
    }
  }

  /** A node on a path from START to END is reachable from START and reaches
      END. */
  lemma OnPathConnected<N, P>(g: GraphDef<N, P>, p: seq<string>, i: nat)
    requires IsPath(g, p) && p[0] == Start && p[|p| - 1] == End && i < |p|
    ensures Reachable(g, Start, p[i]) && Reachable(g, p[i], End)
  {
    SubPaths(g, p, i);
    var before, after := p[..i + 1], p[i..];
    assert before[0] == Start && before[|before| - 1] == p[i];
    assert after[0] == p[i] && after[|after| - 1] == End;
  }

  /** Every node lies on a path from START to END. */
  ghost predicate Connected<N, P>(g: GraphDef<N, P>) {
    forall n :: n in g.nodes ==> Reachable(g, Start, n) && Reachable(g, n, End)
  }

  /** A walk runs only declared nodes, at most `fuel` of them, along declared
      edges from `at`; a finished walk's last step reaches END, and a node
      that raises is the last to run. */
  lemma {:induction false} WalkFollowsGraph<N, P>(g: GraphDef<N, P>, lib: Library<N, P>, at: string, state: State, fuel: nat)
    ensures var r := Walk(g, lib, at, state, fuel);
      && |r.trace| <= fuel
      && (forall i :: 0 <= i < |r.trace| ==> r.trace[i] in g.nodes)
      && IsPath(g, [at] + r.trace)
      && (r.Finished? ==> IsPath(g, [at] + r.trace + [End]))
      && (r.Aborted? && r.error.NodeFailed? ==> r.trace != [] && r.trace[|r.trace| - 1] == r.error.node)
    decreases fuel
  {
    var r := Walk(g, lib, at, state, fuel);
    match NextNode(g, lib, at, state)
    case Failure(e) =>
    case Success(next) =>
      assert Step(g, at, next);
      if next != End && next in g.nodes && fuel > 0 {
        match lib.run(g.nodes[next], state)
        case Raised(cause) =>
          assert [at] + r.trace == [at, next];
        case Updated(u) =>
          var rest := Walk(g, lib, next, Merge(state, u), fuel - 1);
          WalkFollowsGraph(g, lib, next, Merge(state, u), fuel - 1);
          assert r.trace == [next] + rest.trace;
          var p := [at] + r.trace;
          assert p == [at] + ([next] + rest.trace);
          forall i | 0 <= i < |p| - 1 ensures Step(g, p[i], p[i + 1]) {
            if i > 0 {
              assert p[i] == ([next] + rest.trace)[i - 1] && p[i + 1] == ([next] + rest.trace)[i];
            }
          }
          if r.Finished? {
            var q := [at] + r.trace + [End];
            forall i | 0 <= i < |q| - 1 ensures Step(g, q[i], q[i + 1]) {
              if i > 0 {
                assert q[i] == ([next] + rest.trace + [End])[i - 1] && q[i + 1] == ([next] + rest.trace + [End])[i];
              }
            }
          }
      } else if next == End {
        assert [at] + r.trace + [End] == [at, End];
      }
  }

  // ----- the builder object -----

  /** A StateGraph under construction. */
  class StateGraph<N, P> {
    var nodes: map<string, N>
    var edges: seq<Edge>
    var branches: map<string, Branch<P>>

    function Def(): GraphDef<N, P>
      reads this
    {
      GraphDef(nodes, edges, branches)
    }

    constructor ()
      ensures Def() == EmptyGraph()
    {
      nodes, edges, branches := map[], [], map[];
    }

    /** add_node(name, body). */
    method AddNode(name: string, body: N) returns (r: Outcome<GraphError>)
      modifies this
      ensures Built(Def(), r) == After(old(Def()), Declare(old(Def()), NodeDecl(name, body)))
    {
      if name in nodes {
        return Fail(NodeAlreadyPresent(name));
      }
      if name == Start || name == End {
        return Fail(ReservedName(name));
      }
      nodes := nodes[name := body];
      r := Pass;
    }

    /** add_edge(source, target). */
    method AddEdge(source: string, target: string) returns (r: Outcome<GraphError>)
      modifies this
      ensures Built(Def(), r) == After(old(Def()), Declare(old(Def()), EdgeDecl(source, target)))
    {
      if source == End {
        return Fail(EndAsSource);
      }
      if target == Start {
        return Fail(StartAsTarget);
      }
      if Edge(source, target) !in edges {
        edges := edges + [Edge(source, target)];
      }
      r := Pass;
    }

    /** add_conditional_edges(source, path, ends). */
    method AddConditionalEdges(source: string, path: P, ends: map<string, string>) returns (r: Outcome<GraphError>)
      modifies this
      ensures Built(Def(), r) == After(old(Def()), Declare(old(Def()), BranchDecl(source, path, ends)))
    {
      if source in branches {
        return Fail(BranchAlreadyPresent(source));
      }
      branches := branches[source := Branch(path, ends)];
      r := Pass;
    }

    /** compile(): the validated definition; the builder is left as it is. */
    method Compile() returns (r: Result<GraphDef<N, P>, GraphError>)
      ensures r == Validate(Def())
      ensures r.Success? <==> WellFormed(Def())
      ensures r.Success? ==> r.value == Def()
    {
      r := Validate(Def());
    }
  }
}
