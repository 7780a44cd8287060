/** src/graphs/graph_builder.py: the two workflow variants the builder
    declares on its StateGraph, and what walking them does. */
module Graphs {
  import opened Wrappers
  import opened BlogState
  import opened LangGraph

  const TitleCreationNode := "title_creation"
  const ContentGenerationNode := "content_generation"
  const RouteNode := "route"
  const HindiNode := "hindi_translation"
  const FrenchNode := "french_translation"

  const TopicUseCase := "topic"
  const LanguageUseCase := "language"

  /** The callables attached as nodes: three bound methods of the builder's
      BlogNode, and the wrapper lambda that forces a language before calling
      its translation method. */
  datatype NodeFn = TitleCreation | ContentGeneration | Route | TranslateAs(language: string)

  /** The path function of the conditional edge: BlogNode.route_decision. */
  datatype PathFn = RouteDecision

  /** The methods of a BlogNode. Their bodies call the language model and are
      not part of this model, so they are arbitrary functions here. */
  datatype BlogNode = BlogNode(
    titleCreation: State -> NodeResult,
    contentGeneration: State -> NodeResult,
    route: State -> NodeResult,
    translation: State -> NodeResult,
    routeDecision: State -> string)

  /** The state a translation wrapper hands to `translation`: the incoming
      state with current_language overwritten (lines 45-46). */
  function ForceLanguage(state: State, language: string): (r: State)
    ensures r.Keys == state.Keys + {LanguageKey}
    ensures r[LanguageKey] == Text(language)
    ensures forall k :: k in state && k != LanguageKey ==> r[k] == state[k]
  {
    Merge(state, map[LanguageKey := Text(language)])
  }

  function RunNode(bn: BlogNode, f: NodeFn, state: State): NodeResult {
    match f
    case TitleCreation => bn.titleCreation(state)
    case ContentGeneration => bn.contentGeneration(state)
    case Route => bn.route(state)
    case TranslateAs(language) => bn.translation(ForceLanguage(state, language))
  }

  function Decide(bn: BlogNode, p: PathFn, state: State): string {
    match p
    case RouteDecision => bn.routeDecision(state)
  }

  /** The callables as the walk sees them. */
  function Callables(bn: BlogNode): Library<NodeFn, PathFn> {
    Library((f, s) => RunNode(bn, f, s), (p, s) => Decide(bn, p, s))
  }

  /** One step of a walk with the BlogNode's callables. */
  lemma CallablesStep(g: GraphDef<NodeFn, PathFn>, bn: BlogNode, at: string, state: State, fuel: nat, next: string)
    requires NextNode(g, Callables(bn), at, state) == Success(next)
    requires next != End && next in g.nodes && fuel > 0
    ensures Walk(g, Callables(bn), at, state, fuel) ==
      match RunNode(bn, g.nodes[next], state)
      case Raised(cause) => Aborted(NodeFailed(next, cause), state, [next])
      case Updated(u) => Prepend(next, Walk(g, Callables(bn), next, Merge(state, u), fuel - 1))
  {
    WalkStep(g, Callables(bn), at, state, fuel, next);
    assert Callables(bn).run(g.nodes[next], state) == RunNode(bn, g.nodes[next], state);
  }

  /** A wrapper ignores the language the state arrives with: two states that
      differ at most in current_language give the same translation call. */
  lemma WrapperIgnoresIncomingLanguage(bn: BlogNode, language: string, s1: State, s2: State)
    requires forall k :: k != LanguageKey ==> (k in s1 <==> k in s2)
    requires forall k :: k in s1 && k in s2 && k != LanguageKey ==> s1[k] == s2[k]
    ensures RunNode(bn, TranslateAs(language), s1) == RunNode(bn, TranslateAs(language), s2)
  {
    var f1, f2 := ForceLanguage(s1, language), ForceLanguage(s2, language);
    assert f1.Keys == f2.Keys;
    assert f1 == f2;
  }

  /** Forcing a language twice keeps only the second. */
  lemma ForceLanguageOverrides(state: State, first: string, second: string)
    ensures ForceLanguage(ForceLanguage(state, first), second) == ForceLanguage(state, second)
  {
    var a, b := ForceLanguage(ForceLanguage(state, first), second), ForceLanguage(state, second);
    assert a.Keys == b.Keys;
  }

  // ----- the declarations -----

  /** build_topic_graph, lines 25-31. */
  function TopicDecls(): seq<Decl<NodeFn, PathFn>> {
    [ NodeDecl(TitleCreationNode, TitleCreation),
      NodeDecl(ContentGenerationNode, ContentGeneration),
      EdgeDecl(Start, TitleCreationNode),
      EdgeDecl(TitleCreationNode, ContentGenerationNode),
      EdgeDecl(ContentGenerationNode, End) ]
  }

  /** The label map of the conditional edge, lines 58-61. */
  function LanguageEnds(): map<string, string> {
    map["hindi" := HindiNode, "french" := FrenchNode]
  }

  /** build_language_graph, lines 42-65. */
  function LanguageDecls(): seq<Decl<NodeFn, PathFn>> {
    [ NodeDecl(TitleCreationNode, TitleCreation),
      NodeDecl(ContentGenerationNode, ContentGeneration),
      NodeDecl(RouteNode, Route),
      NodeDecl(HindiNode, TranslateAs("hindi")),
      NodeDecl(FrenchNode, TranslateAs("french")),
      EdgeDecl(Start, TitleCreationNode),
      EdgeDecl(TitleCreationNode, ContentGenerationNode),
      EdgeDecl(ContentGenerationNode, RouteNode),
      BranchDecl(RouteNode, RouteDecision, LanguageEnds()),
      EdgeDecl(HindiNode, End),
      EdgeDecl(FrenchNode, End) ]
  }

  /** The topic variant: START -> title_creation -> content_generation -> END. */
  function TopicGraph(): GraphDef<NodeFn, PathFn> {
    GraphDef(
      map[TitleCreationNode := TitleCreation, ContentGenerationNode := ContentGeneration],
      [Edge(Start, TitleCreationNode), Edge(TitleCreationNode, ContentGenerationNode), Edge(ContentGenerationNode, End)],
      map[])
  }

  /** The language variant: START -> title_creation -> content_generation ->
      route, then "hindi"/"french" to one translation node each, then END. */
  function LanguageGraph(): GraphDef<NodeFn, PathFn> {
    GraphDef(
      map[TitleCreationNode := TitleCreation, ContentGenerationNode := ContentGeneration, RouteNode := Route,
          HindiNode := TranslateAs("hindi"), FrenchNode := TranslateAs("french")],
      [Edge(Start, TitleCreationNode), Edge(TitleCreationNode, ContentGenerationNode), Edge(ContentGenerationNode, RouteNode),
       Edge(HindiNode, End), Edge(FrenchNode, End)],
      map[RouteNode := Branch(RouteDecision, LanguageEnds())])
  }

  /** On a fresh StateGraph the topic declarations all succeed, register
      exactly title_creation and content_generation, and compile. */
  lemma TopicGraphBuilt()
    ensures DeclareAll(EmptyGraph(), TopicDecls()) == Built(TopicGraph(), Pass)
    ensures TopicGraph().nodes.Keys == {TitleCreationNode, ContentGenerationNode}
    ensures Validate(TopicGraph()) == Success(TopicGraph())
  {
    var ds := TopicDecls();
    var g0: GraphDef<NodeFn, PathFn> := EmptyGraph();
    var g1 := g0.(nodes := g0.nodes[TitleCreationNode := TitleCreation]);
    var g2 := g1.(nodes := g1.nodes[ContentGenerationNode := ContentGeneration]);
    var g3 := g2.(edges := g2.edges + [Edge(Start, TitleCreationNode)]);
    var g4 := g3.(edges := g3.edges + [Edge(TitleCreationNode, ContentGenerationNode)]);
    var g5 := g4.(edges := g4.edges + [Edge(ContentGenerationNode, End)]);
    assert DeclareAll(g5, ds[5..]) == Built(g5, Pass);
    assert DeclareAll(g4, ds[4..]) == DeclareAll(g5, ds[5..]);
    assert DeclareAll(g3, ds[3..]) == DeclareAll(g4, ds[4..]);
    assert DeclareAll(g2, ds[2..]) == DeclareAll(g3, ds[3..]);
    assert DeclareAll(g1, ds[1..]) == DeclareAll(g2, ds[2..]);
    assert DeclareAll(g0, ds) == DeclareAll(g1, ds[1..]);
    assert g5 == TopicGraph();
  }

  /** The language graph with its nodes but no edges yet. */
  function LanguageNodesOnly(): GraphDef<NodeFn, PathFn> {
    GraphDef(LanguageGraph().nodes, [], map[])
  }

  lemma LanguageNodesDeclared()
    ensures DeclareAll(EmptyGraph(), LanguageDecls()) == DeclareAll(LanguageNodesOnly(), LanguageDecls()[5..])
  {
    var ds := LanguageDecls();
    var g0: GraphDef<NodeFn, PathFn> := EmptyGraph();
    var g1 := g0.(nodes := g0.nodes[TitleCreationNode := TitleCreation]);
    var g2 := g1.(nodes := g1.nodes[ContentGenerationNode := ContentGeneration]);
    var g3 := g2.(nodes := g2.nodes[RouteNode := Route]);
    var g4 := g3.(nodes := g3.nodes[HindiNode := TranslateAs("hindi")]);
    var g5 := g4.(nodes := g4.nodes[FrenchNode := TranslateAs("french")]);
    assert DeclareAll(g4, ds[4..]) == DeclareAll(g5, ds[5..]);
    assert DeclareAll(g3, ds[3..]) == DeclareAll(g4, ds[4..]);
    assert DeclareAll(g2, ds[2..]) == DeclareAll(g3, ds[3..]);
    assert DeclareAll(g1, ds[1..]) == DeclareAll(g2, ds[2..]);
    assert DeclareAll(g0, ds) == DeclareAll(g1, ds[1..]);
    assert g5 == LanguageNodesOnly();
  }

  lemma LanguageEdgesDeclared()
    ensures DeclareAll(LanguageNodesOnly(), LanguageDecls()[5..]) == Built(LanguageGraph(), Pass)
  {
    var ds := LanguageDecls()[5..];
    var g5 := LanguageNodesOnly();
    var g6 := g5.(edges := g5.edges + [Edge(Start, TitleCreationNode)]);
    var g7 := g6.(edges := g6.edges + [Edge(TitleCreationNode, ContentGenerationNode)]);
    var g8 := g7.(edges := g7.edges + [Edge(ContentGenerationNode, RouteNode)]);
    var g9 := g8.(branches := g8.branches[RouteNode := Branch(RouteDecision, LanguageEnds())]);
    var g10 := g9.(edges := g9.edges + [Edge(HindiNode, End)]);
    var g11 := g10.(edges := g10.edges + [Edge(FrenchNode, End)]);
    assert DeclareAll(g11, ds[6..]) == Built(g11, Pass);
    assert DeclareAll(g10, ds[5..]) == DeclareAll(g11, ds[6..]);
    assert DeclareAll(g9, ds[4..]) == DeclareAll(g10, ds[5..]);
    assert DeclareAll(g8, ds[3..]) == DeclareAll(g9, ds[4..]);
    assert DeclareAll(g7, ds[2..]) == DeclareAll(g8, ds[3..]);
    assert DeclareAll(g6, ds[1..]) == DeclareAll(g7, ds[2..]);
    assert DeclareAll(g5, ds) == DeclareAll(g6, ds[1..]);
    assert g11 == LanguageGraph();
  }

  /** compile accepts the language graph. */
  lemma LanguageGraphCompiles()
    ensures Validate(LanguageGraph()) == Success(LanguageGraph())
  {
    var g := LanguageGraph();
    assert SourcesKnown(g) by {
      forall e | e in g.edges ensures e.source == Start || e.source in g.nodes {
      }
    }
    assert HasEntryPoint(g) by {
      assert g.edges[0] == Edge(Start, TitleCreationNode);
    }
    assert TargetsKnown(g) by {
      forall e | e in g.edges ensures e.target == End || e.target in g.nodes {
      }
      forall s, l | s in g.branches && l in g.branches[s].ends
        ensures g.branches[s].ends[l] == End || g.branches[s].ends[l] in g.nodes
      {
        assert s == RouteNode;
        assert l == "hindi" || l == "french";
      }
    }
  }

  /** On a fresh StateGraph the language declarations all succeed, register
      the five nodes, and compile. */
  lemma LanguageGraphBuilt()
    ensures DeclareAll(EmptyGraph(), LanguageDecls()) == Built(LanguageGraph(), Pass)
    ensures LanguageGraph().nodes.Keys == {TitleCreationNode, ContentGenerationNode, RouteNode, HindiNode, FrenchNode}
    ensures Validate(LanguageGraph()) == Success(LanguageGraph())
  {
    LanguageNodesDeclared();
    LanguageEdgesDeclared();
    LanguageGraphCompiles();
  }

  // ----- walking the variants -----

  lemma TopicTargets()
    ensures Targets(TopicGraph().edges, Start) == [TitleCreationNode]
    ensures Targets(TopicGraph().edges, TitleCreationNode) == [ContentGenerationNode]
    ensures Targets(TopicGraph().edges, ContentGenerationNode) == [End]
  {
    var es := TopicGraph().edges;
    assert Targets(es, Start) == [TitleCreationNode];
    assert Targets(es, TitleCreationNode) == [ContentGenerationNode];
    assert Targets(es, ContentGenerationNode) == [End];
  }

  lemma TopicNext(lib: Library<NodeFn, PathFn>, s: State)
    ensures NextNode(TopicGraph(), lib, Start, s) == Success(TitleCreationNode)
    ensures NextNode(TopicGraph(), lib, TitleCreationNode, s) == Success(ContentGenerationNode)
    ensures NextNode(TopicGraph(), lib, ContentGenerationNode, s) == Success(End)
  {
    TopicTargets();
  }

  /** invoke on the topic variant: title_creation runs on the input, then
      content_generation on the merged state, then the walk reaches END; a
      node that raises ends the walk there with the state so far. */
  lemma TopicWalk(bn: BlogNode, input: State)
    ensures var r := Invoke(TopicGraph(), Callables(bn), input);
      match bn.titleCreation(input)
      case Raised(c) => r == Aborted(NodeFailed(TitleCreationNode, c), input, [TitleCreationNode])
      case Updated(u1) =>
        match bn.contentGeneration(Merge(input, u1))
        case Raised(c) =>
          r == Aborted(NodeFailed(ContentGenerationNode, c), Merge(input, u1), [TitleCreationNode, ContentGenerationNode])
        case Updated(u2) =>
          r == Finished(Merge(Merge(input, u1), u2), [TitleCreationNode, ContentGenerationNode])
  {
    var lib := Callables(bn);
    TopicNext(lib, input);
    match bn.titleCreation(input)
    case Raised(c) =>
    case Updated(u1) =>
      var s1 := Merge(input, u1);
      TopicNext(lib, s1);
      match bn.contentGeneration(s1)
      case Raised(c) =>
      case Updated(u2) =>
        TopicNext(lib, Merge(s1, u2));
  }

  lemma LanguageTargets()
    ensures Targets(LanguageGraph().edges, Start) == [TitleCreationNode]
    ensures Targets(LanguageGraph().edges, TitleCreationNode) == [ContentGenerationNode]
    ensures Targets(LanguageGraph().edges, ContentGenerationNode) == [RouteNode]
    ensures Targets(LanguageGraph().edges, RouteNode) == []
    ensures Targets(LanguageGraph().edges, HindiNode) == [End]
    ensures Targets(LanguageGraph().edges, FrenchNode) == [End]
  {
    var es := LanguageGraph().edges;
    assert Targets(es, Start) == [TitleCreationNode];
    assert Targets(es, TitleCreationNode) == [ContentGenerationNode];
    assert Targets(es, ContentGenerationNode) == [RouteNode];
    assert Targets(es, RouteNode) == [];
    assert Targets(es, HindiNode) == [End];
    assert Targets(es, FrenchNode) == [End];
  }

  /** The body attached to each node of the language variant. */
  lemma LanguageBodies()
    ensures LanguageGraph().nodes[TitleCreationNode] == TitleCreation
    ensures LanguageGraph().nodes[ContentGenerationNode] == ContentGeneration
    ensures LanguageGraph().nodes[RouteNode] == Route
    ensures LanguageGraph().nodes[HindiNode] == TranslateAs("hindi")
    ensures LanguageGraph().nodes[FrenchNode] == TranslateAs("french")
    ensures LanguageGraph().branches[RouteNode] == Branch(RouteDecision, LanguageEnds())
  {
  }

  lemma LanguageNextChain(lib: Library<NodeFn, PathFn>, s: State)
    ensures NextNode(LanguageGraph(), lib, Start, s) == Success(TitleCreationNode)
    ensures NextNode(LanguageGraph(), lib, TitleCreationNode, s) == Success(ContentGenerationNode)
    ensures NextNode(LanguageGraph(), lib, ContentGenerationNode, s) == Success(RouteNode)
  {
    LanguageTargets();
  }

  lemma LanguageNextEnd(lib: Library<NodeFn, PathFn>, s: State)
    ensures NextNode(LanguageGraph(), lib, HindiNode, s) == Success(End)
    ensures NextNode(LanguageGraph(), lib, FrenchNode, s) == Success(End)
  {
    LanguageTargets();
  }

  lemma LanguageNextRoute(lib: Library<NodeFn, PathFn>, s: State)
    ensures NextNode(LanguageGraph(), lib, RouteNode, s) ==
      var choice := lib.decide(RouteDecision, s);
      if choice == "hindi" then Success(HindiNode)
      else if choice == "french" then Success(FrenchNode)
      else Failure(RoutingError(RouteNode, choice))
  {
    LanguageTargets();
    LanguageBodies();
  }

  /** After route has run: the label picks the one translation node it maps
      to, which runs on the state with current_language forced to that label,
      and the walk reaches END; any other label is a routing error before any
      translation runs. */
  lemma LanguageBranch(bn: BlogNode, s: State, fuel: nat)
    requires fuel >= 1
    ensures var r := Walk(LanguageGraph(), Callables(bn), RouteNode, s, fuel);
      var choice := bn.routeDecision(s);
      if choice == "hindi" || choice == "french" then
        var node := if choice == "hindi" then HindiNode else FrenchNode;
        match bn.translation(ForceLanguage(s, choice))
        case Raised(c) => r == Aborted(NodeFailed(node, c), s, [node])
        case Updated(u) => r == Finished(Merge(s, u), [node])
      else r == Aborted(RoutingError(RouteNode, choice), s, [])
  {
    var lib := Callables(bn);
    LanguageNextRoute(lib, s);
    var choice := bn.routeDecision(s);
    if choice == "hindi" || choice == "french" {
      match bn.translation(ForceLanguage(s, choice))
      case Raised(c) =>
      case Updated(u) =>
        LanguageNextEnd(lib, Merge(s, u));
    }
  }

  /** invoke on the language variant runs title_creation, content_generation
      and route, in that order, before anything else. */
  lemma LanguageWalkPrefix(bn: BlogNode, input: State)
    ensures var r := Invoke(LanguageGraph(), Callables(bn), input);
      match bn.titleCreation(input)
      case Raised(c) => r == Aborted(NodeFailed(TitleCreationNode, c), input, [TitleCreationNode])
      case Updated(u1) =>
        var s1 := Merge(input, u1);
        match bn.contentGeneration(s1)
        case Raised(c) => r == Aborted(NodeFailed(ContentGenerationNode, c), s1, [TitleCreationNode, ContentGenerationNode])
        case Updated(u2) =>
          var s2 := Merge(s1, u2);
          match bn.route(s2)
          case Raised(c) => r == Aborted(NodeFailed(RouteNode, c), s2, [TitleCreationNode, ContentGenerationNode, RouteNode])
          case Updated(u3) =>
            r == Prepend(TitleCreationNode, Prepend(ContentGenerationNode, Prepend(RouteNode,
              Walk(LanguageGraph(), Callables(bn), RouteNode, Merge(s2, u3), RecursionLimit - 3))))
  {
    var g, lib := LanguageGraph(), Callables(bn);
    LanguageBodies();
    LanguageNextChain(lib, input);
    CallablesStep(g, bn, Start, input, RecursionLimit, TitleCreationNode);
    match bn.titleCreation(input)
    case Raised(c) =>
    case Updated(u1) =>
      var s1 := Merge(input, u1);
      LanguageNextChain(lib, s1);
      CallablesStep(g, bn, TitleCreationNode, s1, RecursionLimit - 1, ContentGenerationNode);
      match bn.contentGeneration(s1)
      case Raised(c) =>
      case Updated(u2) =>
        var s2 := Merge(s1, u2);
        LanguageNextChain(lib, s2);
        CallablesStep(g, bn, ContentGenerationNode, s2, RecursionLimit - 2, RouteNode);
  }

  predicate IsTranslation(node: string) {
    node == HindiNode || node == FrenchNode
  }

  /** What a language walk can look like: title_creation, content_generation,
      route and then at most one translation; finishing takes exactly one
      translation, last; a routing error comes right after route, with a
      label outside the map, before any translation; no other kind of error
      occurs. */
  predicate LanguageRunShape(r: Run) {
    && (r.trace <= [TitleCreationNode, ContentGenerationNode, RouteNode, HindiNode]
        || r.trace <= [TitleCreationNode, ContentGenerationNode, RouteNode, FrenchNode])
    && (r.Finished? ==> |r.trace| == 4 && IsTranslation(r.trace[3]))
    && (r.Aborted? ==> r.error.NodeFailed? || r.error.RoutingError?)
    && (r.Aborted? && r.error.RoutingError? ==>
          r.trace == [TitleCreationNode, ContentGenerationNode, RouteNode]
          && r.error.node == RouteNode && r.error.choice !in LanguageEnds())
  }

  /** What the walk from route can look like. */
  predicate BranchRunShape(w: Run) {
    || (w.trace == [] && w.Aborted? && w.error.RoutingError?
        && w.error.node == RouteNode && w.error.choice !in LanguageEnds())
    || ((w.trace == [HindiNode] || w.trace == [FrenchNode]) && (w.Finished? || w.error.NodeFailed?))
  }

  lemma BranchWalkShape(bn: BlogNode, s: State, fuel: nat)
    requires fuel >= 1
    ensures BranchRunShape(Walk(LanguageGraph(), Callables(bn), RouteNode, s, fuel))
  {
    LanguageBranch(bn, s, fuel);
  }

  lemma PrefixedBranchShape(w: Run)
    requires BranchRunShape(w)
    ensures LanguageRunShape(Prepend(TitleCreationNode, Prepend(ContentGenerationNode, Prepend(RouteNode, w))))
  {
    var r := Prepend(TitleCreationNode, Prepend(ContentGenerationNode, Prepend(RouteNode, w)));
    assert r.trace == [TitleCreationNode, ContentGenerationNode, RouteNode] + w.trace;
  }

  /** Whatever the node bodies and the label do, a language walk has the
      shape above. */
  lemma LanguageWalkShape(bn: BlogNode, input: State)
    ensures LanguageRunShape(Invoke(LanguageGraph(), Callables(bn), input))
  {
    LanguageWalkPrefix(bn, input);
    match bn.titleCreation(input)
    case Raised(c) =>
    case Updated(u1) =>
      var s1 := Merge(input, u1);
      match bn.contentGeneration(s1)
      case Raised(c) =>
      case Updated(u2) =>
        var s2 := Merge(s1, u2);
        match bn.route(s2)
        case Raised(c) =>
        case Updated(u3) =>
          BranchWalkShape(bn, Merge(s2, u3), RecursionLimit - 3);
          PrefixedBranchShape(Walk(LanguageGraph(), Callables(bn), RouteNode, Merge(s2, u3), RecursionLimit - 3));
  }

  /** The topic variant's two nodes lie on the path START, title_creation,
      content_generation, END. */
  lemma TopicGraphConnected()
    ensures Connected(TopicGraph())
  {
    var g := TopicGraph();
    var p := [Start, TitleCreationNode, ContentGenerationNode, End];
    TopicTargets();
    assert IsPath(g, p);
    forall n | n in g.nodes ensures Reachable(g, Start, n) && Reachable(g, n, End) {
      OnPathConnected(g, p, if n == TitleCreationNode then 1 else 2);
    }
  }

  function HindiPath(): seq<string> {
    [Start, TitleCreationNode, ContentGenerationNode, RouteNode, HindiNode, End]
  }

  function FrenchPath(): seq<string> {
    [Start, TitleCreationNode, ContentGenerationNode, RouteNode, FrenchNode, End]
  }

  lemma LanguageRouteSuccessors()
    ensures Step(LanguageGraph(), RouteNode, HindiNode)
    ensures Step(LanguageGraph(), RouteNode, FrenchNode)
  {
    LanguageBodies();
    assert LanguageEnds()["hindi"] == HindiNode;
    assert LanguageEnds()["french"] == FrenchNode;
  }

  lemma LanguageChainSuccessors()
    ensures Step(LanguageGraph(), Start, TitleCreationNode)
    ensures Step(LanguageGraph(), TitleCreationNode, ContentGenerationNode)
    ensures Step(LanguageGraph(), ContentGenerationNode, RouteNode)
    ensures Step(LanguageGraph(), HindiNode, End)
    ensures Step(LanguageGraph(), FrenchNode, End)
  {
    LanguageTargets();
  }

  lemma LanguagePaths()
    ensures IsPath(LanguageGraph(), HindiPath()) && IsPath(LanguageGraph(), FrenchPath())
  {
    var g := LanguageGraph();
    LanguageRouteSuccessors();
    LanguageChainSuccessors();
    forall i | 0 <= i < 5
      ensures Step(g, HindiPath()[i], HindiPath()[i + 1])
      ensures Step(g, FrenchPath()[i], FrenchPath()[i + 1])
    {
      if i == 0 {
        assert HindiPath()[0] == Start && HindiPath()[1] == TitleCreationNode;
      } else if i == 1 {
        assert HindiPath()[1] == TitleCreationNode && HindiPath()[2] == ContentGenerationNode;
      } else if i == 2 {
        assert HindiPath()[2] == ContentGenerationNode && HindiPath()[3] == RouteNode;
      } else if i == 3 {
        assert HindiPath()[3] == RouteNode && HindiPath()[4] == HindiNode;
      } else {
        assert HindiPath()[4] == HindiNode && HindiPath()[5] == End;
      }
    }
  }

  /** Every node of the language variant lies on START, title_creation,
      content_generation, route, then hindi_translation or
      french_translation, END. */
  lemma LanguageGraphConnected()
    ensures Connected(LanguageGraph())
  {
    var g := LanguageGraph();
    LanguagePaths();
    forall n | n in g.nodes ensures Reachable(g, Start, n) && Reachable(g, n, End) {
      if n == FrenchNode {
        OnPathConnected(g, FrenchPath(), 4);
      } else {
        var i := if n == TitleCreationNode then 1 else if n == ContentGenerationNode then 2 else if n == RouteNode then 3 else 4;
        assert HindiPath()[i] == n;
        OnPathConnected(g, HindiPath(), i);
      }
    }
  }

  // ----- the builder -----

  /** What setup_graph leaves behind: the builder's graph, and the compiled
      graph or the error raised on the way. */
  datatype SetupResult = SetupResult(graph: GraphDef<NodeFn, PathFn>, compiled: Result<GraphDef<NodeFn, PathFn>, GraphError>)

  /** setup_graph(usecase), lines 74-80, on a builder whose graph holds `g`:
      "topic" declares the topic variant, "language" the language variant,
      anything else declares nothing; then the graph is compiled. */
  function Setup(g: GraphDef<NodeFn, PathFn>, usecase: string): SetupResult {
    var topic := if usecase == TopicUseCase then DeclareAll(g, TopicDecls()) else Built(g, Pass);
    if topic.outcome.Fail? then SetupResult(topic.graph, Failure(topic.outcome.error))
    else
      var language := if usecase == LanguageUseCase then DeclareAll(topic.graph, LanguageDecls()) else Built(topic.graph, Pass);
      if language.outcome.Fail? then SetupResult(language.graph, Failure(language.outcome.error))
      else SetupResult(language.graph, Validate(language.graph))
  }

  /** On a fresh builder, "topic" and "language" compile their variant, and
      any other use case leaves the graph empty, so compile finds no entry
      point. */
  lemma SetupOnFreshBuilder(usecase: string)
    ensures Setup(EmptyGraph(), usecase) ==
      if usecase == TopicUseCase then SetupResult(TopicGraph(), Success(TopicGraph()))
      else if usecase == LanguageUseCase then SetupResult(LanguageGraph(), Success(LanguageGraph()))
      else SetupResult(EmptyGraph(), Failure(InvalidGraph(NoEntryPoint)))
  {
    if usecase == TopicUseCase {
      TopicGraphBuilt();
    } else if usecase == LanguageUseCase {
      LanguageGraphBuilt();
    } else {
      EmptyGraphRejected<NodeFn, PathFn>();
    }
  }

  /** A use case other than "topic" and "language" adds no node, edge or
      branch to whatever the builder holds. */
  lemma SetupOtherUseCaseAddsNothing(g: GraphDef<NodeFn, PathFn>, usecase: string)
    requires usecase != TopicUseCase && usecase != LanguageUseCase
    ensures Setup(g, usecase).graph == g
    ensures Setup(g, usecase).compiled == Validate(g)
  {
  }

  /** A builder cannot be set up twice for the topic variant: the second
      add_node("title_creation") raises, and the graph stays as it was. */
  lemma SetupTwiceRaises()
    ensures Setup(TopicGraph(), TopicUseCase) == SetupResult(TopicGraph(), Failure(NodeAlreadyPresent(TitleCreationNode)))
  {
    DeclareAllFirst(TopicGraph(), TopicDecls());
  }

  /** GraphBuilder: the StateGraph that build_topic_graph,
      build_language_graph and setup_graph add to. */
  class GraphBuilder {
    var graph: StateGraph<NodeFn, PathFn>

    constructor ()
      ensures fresh(graph) && graph.Def() == EmptyGraph()
    {
      graph := new StateGraph();
    }

    /** build_topic_graph, lines 18-33. */
    method BuildTopicGraph() returns (r: Outcome<GraphError>)
      modifies graph
      ensures Built(graph.Def(), r) == DeclareAll(old(graph.Def()), TopicDecls())
    {
      ghost var ds := TopicDecls();
      DeclareAllFirst(graph.Def(), ds);
      r := graph.AddNode(TitleCreationNode, TitleCreation);
      if r.Fail? { return; }
      ds := ds[1..];
      DeclareAllFirst(graph.Def(), ds);
      r := graph.AddNode(ContentGenerationNode, ContentGeneration);
      if r.Fail? { return; }
      ds := ds[1..];
      DeclareAllFirst(graph.Def(), ds);
      r := graph.AddEdge(Start, TitleCreationNode);
      if r.Fail? { return; }
      ds := ds[1..];
      DeclareAllFirst(graph.Def(), ds);
      r := graph.AddEdge(TitleCreationNode, ContentGenerationNode);
      if r.Fail? { return; }
      ds := ds[1..];
      DeclareAllFirst(graph.Def(), ds);
      r := graph.AddEdge(ContentGenerationNode, End);
    }
  
    /** build_language_graph, lines 35-67. */
    method BuildLanguageGraph() returns (r: Outcome<GraphError>)
      modifies graph
      ensures Built(graph.Def(), r) == DeclareAll(old(graph.Def()), LanguageDecls())
    {
      ghost var ds := LanguageDecls();
      DeclareAllFirst(graph.Def(), ds);
      r := graph.AddNode(TitleCreationNode, TitleCreation);
      if r.Fail? { return; }
      ds := ds[1..];
      DeclareAllFirst(graph.Def(), ds);
      r := graph.AddNode(ContentGenerationNode, ContentGeneration);
      if r.Fail? { return; }
      ds := ds[1..];
      DeclareAllFirst(graph.Def(), ds);
      r := graph.AddNode(RouteNode, Route);
      if r.Fail? { return; }
      ds := ds[1..];
      DeclareAllFirst(graph.Def(), ds);
      r := graph.AddNode(HindiNode, TranslateAs("hindi"));
      if r.Fail? { return; }
      ds := ds[1..];
      DeclareAllFirst(graph.Def(), ds);
      r := graph.AddNode(FrenchNode, TranslateAs("french"));
      if r.Fail? { return; }
      ds := ds[1..];
      DeclareAllFirst(graph.Def(), ds);
      r := graph.AddEdge(Start, TitleCreationNode);
      if r.Fail? { return; }
      ds := ds[1..];
      DeclareAllFirst(graph.Def(), ds);
      r := graph.AddEdge(TitleCreationNode, ContentGenerationNode);
      if r.Fail? { return; }
      ds := ds[1..];
      DeclareAllFirst(graph.Def(), ds);
      r := graph.AddEdge(ContentGenerationNode, RouteNode);
      if r.Fail? { return; }
      ds := ds[1..];
      DeclareAllFirst(graph.Def(), ds);
      r := graph.AddConditionalEdges(RouteNode, RouteDecision, LanguageEnds());
      if r.Fail? { return; }
      ds := ds[1..];
      DeclareAllFirst(graph.Def(), ds);
      r := graph.AddEdge(HindiNode, End);
      if r.Fail? { return; }
      ds := ds[1..];
      DeclareAllFirst(graph.Def(), ds);
      r := graph.AddEdge(FrenchNode, End);
    }

    /** setup_graph(usecase), lines 74-80. */
    method SetupGraph(usecase: string) returns (r: Result<GraphDef<NodeFn, PathFn>, GraphError>)
      modifies graph
      ensures SetupResult(graph.Def(), r) == Setup(old(graph.Def()), usecase)
    {
      if usecase == TopicUseCase {
        var o := BuildTopicGraph();
        if o.Fail? {
          return Failure(o.error);
        }
      }
      if usecase == LanguageUseCase {
        var o := BuildLanguageGraph();
        if o.Fail? {
          return Failure(o.error);
        }
      }
      r := graph.Compile();
    }
  }
}
