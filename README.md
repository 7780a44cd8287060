# bloggeneration-with-langgraph, modelled in Dafny

This project models the two pieces of the blog generator that hold the
repository's own logic.

- **The `POST /blogs` handler in `app.py`** (module `App`, with module `Slug`):
  - An empty or missing topic is rejected.
  - The language is lower-cased and picks the `"language"` or the `"topic"` use
    case, together with the initial state.
  - The `blog` record is read out of the final state, with its defaults.
  - The title becomes a URL-friendly slug through the six-step pipeline of
    lines 60-64.
  - The post is given a path `blogs/<language>/<slug>_<timestamp>.md` and the
    body `"# " + title + "\n\n" + content`.
- **`GraphBuilder` in `src/graphs/graph_builder.py`** (module `Graphs`):
  - An imperative class whose methods declare the topic and language workflow
    variants on a langgraph `StateGraph`, step by step, and compile the result.
  - The translation wrappers force `current_language` into the state before
    delegating to `translation`.

langgraph is not part of the repository. Module `LangGraph` holds a model of
the part of its `StateGraph` that the builder uses: `add_node`, `add_edge`,
`add_conditional_edges`, `compile` and a sequential `invoke`. It is a class
over a `GraphDef` value, whose declarations are specified by a function on
that value. Everything in that module is a stated modelling assumption, and
its doc comment lists each one.

The `BlogNode` methods call a language model, so they are arbitrary functions
(`Graphs.BlogNode`). Every property about a walk therefore holds whatever the
nodes return or raise, and whatever label `route_decision` picks. The
timestamp is a parameter.

Files:
- `wrappers.dfy`: Option, Result and Outcome.
- `slug.dfy`: the slug pipeline.
- `blog_state.dfy`: the state and the shallow merge.
- `state_graph.dfy`: the assumed StateGraph.
- `graph_builder.dfy`: the builder and its two variants.
- `app.dfy`: the handler.

## Model

| member | source | states |
|---|---|---|
| Slug.LowerChar | app.py:60 | Lowering one character keeps its class. The result is a lower-case letter or digit exactly when the input is an ASCII letter or digit; it is whitespace or '-' exactly when the input is. Characters of [a-z0-9-] are unchanged. |
| Slug.LowerShape | app.py:60 | `lower()` keeps the length and lowers the string character by character. |
| Slug.LowerAppend | app.py:60 | Lowering distributes over concatenation. |
| Slug.LowerIdempotent | app.py:34-51 | Lowering twice equals lowering once, so the second `.lower()` on line 51 changes nothing. Only the empty string lowers to the empty string, so the language chooses the use case exactly as it was sent. |
| Slug.StripStartShape | app.py:60 | Stripping the start removes a prefix of characters in the class. What is left does not start with one. |
| Slug.StripEndShape | app.py:64 | Stripping the end removes a suffix of characters in the class. What is left does not end with one. |
| Slug.StripShape | app.py:60-64 | `strip()` and `strip('-')` leave no class character at either end. They change nothing when there is none at either end. They remove everything only when every character is in the class. |
| Slug.StripSlice | app.py:64 | The stripped string is a contiguous slice of its input. |
| Slug.ReplaceRunsLength | app.py:61-63 | Replacing runs never lengthens the string, and a non-empty input gives a non-empty result. The result's first character is the replacement when the input starts with a class character, and the input's own first character otherwise. |
| Slug.ReplaceRunsOrigin | app.py:61-63 | Every character written is the replacement, or an input character outside the class. |
| Slug.ReplaceRunsNoAdjacent | app.py:61-63 | After `re.sub(P+, c)`, no two class characters are adjacent. |
| Slug.ReplaceRunsShape | app.py:61-63 | The three facts above together. |
| Slug.ReplaceRunsFixes | app.py:63 | A string whose class characters are all the replacement, never two in a row, is left unchanged. |
| Slug.ReplaceRunsCopiesPlain | app.py:61 | Characters outside the class are copied through unchanged. |
| Slug.StripStartRun | app.py:61 | A whole run is consumed up to the first character outside the class. |
| Slug.ReplaceRunsRun | app.py:61 | A whole run followed by a non-class character becomes one replacement character. |
| Slug.KeepSlugCharsShape | app.py:62 | The filter never lengthens the string. It keeps only [a-z0-9-], and only characters of its input. It keeps everything when the input is already over [a-z0-9-]. |
| Slug.KeepSlugCharsAppend | app.py:62 | The filter works piece by piece over a concatenation. |
| Slug.KeepSlugCharsFixes | app.py:62 | The filter keeps a string that is already over [a-z0-9-]. |
| Slug.Prefix | app.py:64 | `[:60]` gives a prefix of the string. It has at most 60 characters, exactly 60 when the string is at least that long, and it is the whole string when the string is short enough. |
| Slug.SliceKeepsShape | app.py:64 | A slice of a string over [a-z0-9-] without "--" keeps both properties, so neither truncation nor stripping can create "--". |
| Slug.CollapseKeepsShape | app.py:63 | Collapsing '-' runs keeps the alphabet [a-z0-9-] and leaves no "--". |
| Slug.SlugifyIsSlug | app.py:60-64 | Every slug uses only a-z, 0-9 and '-'. It is at most 60 characters long. It does not begin or end with '-'. It contains no "--". |
| Slug.TidyFixesSlugs | app.py:62-64 | Lines 62-64 leave a slug unchanged. |
| Slug.SlugFixesSlugs | app.py:60-64 | The whole pipeline leaves a slug unchanged. |
| Slug.SlugifyIdempotent | app.py:59-64 | Slugging a slug returns it unchanged. |
| Slug.SliceKeepsNoAlnum | app.py:64 | A slice of a string without letters or digits has none either. |
| Slug.ReplaceKeepsNoAlnum | app.py:61-63 | Replacing runs with '-' introduces no letter or digit. |
| Slug.KeepKeepsNoAlnum | app.py:62 | The filter introduces no letter or digit. |
| Slug.SlugEmptyWithoutAlnum | app.py:60-64 | With the ASCII `lower()` of this model, a title without an ASCII letter or digit, such as a Hindi title, has the empty slug, and the file is named `_<timestamp>.md`. |
| Slug.LowerWords | app.py:60 | A word of ASCII letters and digits lowers to lower-case letters and digits. Whitespace is unchanged by lowering. |
| Slug.LowerTwoWords | app.py:60 | Lowering two words around a whitespace gap keeps the gap. |
| Slug.DashOneGap | app.py:60-61 | A whitespace run between two words without whitespace becomes one '-'. |
| Slug.DashedTwoWords | app.py:60-61 | Lines 60-61 turn two words around a gap into the lowered words joined by '-'. |
| Slug.JoinedWordsAreSlug | app.py:62-64 | Two lower-case words joined by one '-' form a slug when at most 60 characters long. |
| Slug.SlugifyTwoWords | app.py:60-64 | Two words of ASCII letters and digits, separated by any whitespace run, slug to the lowered words joined by a single '-', when the joined words are at most 60 characters long. |
| Slug.LowerAroundSymbol | app.py:60 | Lowering leaves a spaced symbol between two words in place. |
| Slug.DashSpacedSymbol | app.py:61 | The two single spaces around a symbol each become '-'. |
| Slug.DashAroundSymbol | app.py:60-61 | Lines 60-61 turn "a x b" into "a-x-b" for a symbol x. |
| Slug.KeepAroundSymbol | app.py:62 | The filter deletes the symbol and leaves the two '-' around it. |
| Slug.CollapseDoubleHyphen | app.py:63 | Collapsing merges the two '-' into one. |
| Slug.SlugifyDropsSymbol | app.py:60-64 | For two words of ASCII letters and digits around a space-separated symbol, with the joined words at most 60 characters long, line 62 leaves "--" where the symbol stood, and the slug joins the lowered words with a single '-'. |
| Slug.SlugifyHelloWorld | app.py:60-64 | "Hello  World" gives "hello-world". |
| Slug.SlugifyAmpersand | app.py:60-64 | "a & b" is "a--b" after line 62 and "a-b" at the end. |
| BlogState.Merge | src/graphs/graph_builder.py:45-46 | A shallow merge has the keys of both maps. The update's values win, and every other key keeps its value. |
| LangGraph.StateGraph.constructor | src/graphs/graph_builder.py:15 | A new StateGraph has no nodes, edges or branches. |
| LangGraph.StateGraph.AddNode | src/graphs/graph_builder.py:42-46 | `add_node` raises on a name already present or a reserved name, and the graph is then unchanged. Otherwise it adds exactly that node. |
| LangGraph.StateGraph.AddEdge | src/graphs/graph_builder.py:50-52 | `add_edge` raises on END as a source or START as a target. Otherwise it adds the edge once, and a repeated edge changes nothing. |
| LangGraph.StateGraph.AddConditionalEdges | src/graphs/graph_builder.py:55-62 | `add_conditional_edges` raises when the source already has a branch. Otherwise it records the path function and its label map. |
| LangGraph.StateGraph.Compile | src/graphs/graph_builder.py:80 | `compile` succeeds exactly when the graph is well formed, returns that graph, and leaves the builder unchanged. |
| LangGraph.Validate | src/graphs/graph_builder.py:80 | Validation succeeds exactly when every edge and branch starts at a known node, something leaves START, and every target is known. A failure is always InvalidGraph. It is NoEntryPoint exactly when the sources are known but nothing leaves START. |
| LangGraph.DanglingEdgeRejected | src/graphs/graph_builder.py:80 | An edge into an undeclared node makes compile fail. |
| LangGraph.EmptyGraphRejected | src/graphs/graph_builder.py:80 | An empty graph fails to compile for want of an entry point. |
| LangGraph.DeclareAllFirst | src/graphs/graph_builder.py:25-31 | A sequence of declarations runs the first one. It stops there if that one raises, and otherwise goes on from the new graph. |
| LangGraph.DeclareExtends | src/graphs/graph_builder.py:42-65 | A successful declaration keeps every node with its body, every edge and every branch. |
| LangGraph.DeclareAllExtends | src/graphs/graph_builder.py:42-65 | A whole sequence of declarations, even one that stops at an error, removes nothing. |
| LangGraph.DeclarePreservesDeclarable | src/graphs/graph_builder.py:42-65 | Declarations never make START or END a node, and they keep the edges free of repeats. |
| LangGraph.EdgeDeclIdempotent | src/graphs/graph_builder.py:50-52 | Declaring the same edge twice has the effect of declaring it once. |
| LangGraph.TargetsShape | app.py:48 | The targets the walk considers from a node are exactly those of the edges leaving it. |
| LangGraph.WalkStep | app.py:48 | When the way out of a node leads to a declared node and the limit allows it, that node runs. A raise ends the walk there, and otherwise the walk continues from the merged state. |
| LangGraph.WalkFollowsGraph | app.py:48 | A walk runs at most the limit's number of nodes, all of them declared, along declared edges and branches. A finished walk's last node leads to END. A node that raises is the last in the trace. |
| LangGraph.SubPaths | src/graphs/graph_builder.py:50-65 | The first nodes of a path, and its last nodes, are paths. |
| LangGraph.OnPathConnected | src/graphs/graph_builder.py:50-65 | A node on a path from START to END is reachable from START and reaches END. |
| Graphs.ForceLanguage | src/graphs/graph_builder.py:45-46 | The wrapper's state has the incoming keys plus `current_language`, with that key set to the forced language and every other key unchanged. |
| Graphs.WrapperIgnoresIncomingLanguage | src/graphs/graph_builder.py:45-46 | Two states that differ only in `current_language` give the same translation call. |
| Graphs.ForceLanguageOverrides | src/graphs/graph_builder.py:45-46 | Forcing a language over a forced language keeps only the second. |
| Graphs.CallablesStep | src/graphs/graph_builder.py:42-46 | With the BlogNode's callables, a step runs the method or wrapper attached to the next node. |
| Graphs.TopicGraphBuilt | src/graphs/graph_builder.py:25-31 | On a fresh graph the topic declarations all succeed. They register exactly {title_creation, content_generation}, and the result compiles. |
| Graphs.LanguageNodesDeclared | src/graphs/graph_builder.py:42-46 | The five `add_node` calls succeed on a fresh graph and declare the five nodes. |
| Graphs.LanguageEdgesDeclared | src/graphs/graph_builder.py:50-65 | The edge and conditional-edge calls then succeed and give the language variant. |
| Graphs.LanguageGraphCompiles | src/graphs/graph_builder.py:80 | The language variant compiles. |
| Graphs.LanguageGraphBuilt | src/graphs/graph_builder.py:42-65 | On a fresh graph the language declarations all succeed. They register exactly the five nodes, and the result compiles. |
| Graphs.TopicTargets | src/graphs/graph_builder.py:29-31 | In the topic variant, START, title_creation and content_generation each have exactly one outgoing edge: to title_creation, to content_generation and to END. |
| Graphs.TopicNext | src/graphs/graph_builder.py:29-31 | The topic walk goes from START to title_creation, then to content_generation, then to END, whatever the state. |
| Graphs.TopicWalk | src/graphs/graph_builder.py:25-31 | `invoke` on the topic variant runs title_creation on the input, then content_generation on the merged state, then finishes at END. A node that raises ends the walk there, with the state so far. |
| Graphs.LanguageTargets | src/graphs/graph_builder.py:50-65 | The unconditional edges of the language variant, from each node. Route has none. |
| Graphs.LanguageBodies | src/graphs/graph_builder.py:42-62 | Each node carries its method, the two translation nodes carry wrappers forcing "hindi" and "french", and route carries the route_decision branch. |
| Graphs.LanguageNextChain | src/graphs/graph_builder.py:50-52 | The language walk goes from START to title_creation, then to content_generation, then to route, whatever the state. |
| Graphs.LanguageNextEnd | src/graphs/graph_builder.py:64-65 | Both translation nodes lead to END. |
| Graphs.LanguageNextRoute | src/graphs/graph_builder.py:55-62 | After route, label "hindi" leads to hindi_translation and "french" to french_translation. Any other label is a routing error. |
| Graphs.LanguageBranch | src/graphs/graph_builder.py:55-65 | From route, the label selects exactly one translation node. That node runs `translation` on the state with `current_language` forced to the label, and the walk then finishes. Any other label aborts before any translation runs. |
| Graphs.LanguageWalkPrefix | src/graphs/graph_builder.py:50-52 | `invoke` on the language variant runs title_creation, content_generation and route in that order before anything else. A raise ends the walk at that node. |
| Graphs.BranchWalkShape | src/graphs/graph_builder.py:55-65 | The walk from route is a routing error with an unmapped label, or runs exactly one translation node. |
| Graphs.PrefixedBranchShape | src/graphs/graph_builder.py:50-65 | Prefixing a branch walk with the three chain nodes gives a language walk of the stated shape. |
| Graphs.LanguageWalkShape | src/graphs/graph_builder.py:42-65 | Whatever the nodes and the label do, a language walk's trace is a prefix of title_creation, content_generation, route, then hindi_translation or french_translation. A finished walk ran exactly one translation, last and followed by END. The only errors are a raising node, or an unmapped label right after route. |
| Graphs.TopicGraphConnected | src/graphs/graph_builder.py:29-31 | Every node of the topic variant is reachable from START, and END is reachable from it. |
| Graphs.LanguageRouteSuccessors | src/graphs/graph_builder.py:55-62 | The conditional edge links route to both translation nodes. |
| Graphs.LanguageChainSuccessors | src/graphs/graph_builder.py:50-65 | The unconditional edges link START, title_creation, content_generation and route, and link each translation node to END. |
| Graphs.LanguagePaths | src/graphs/graph_builder.py:50-65 | START to END through the hindi translation, and through the french translation, are paths of the language variant. |
| Graphs.LanguageGraphConnected | src/graphs/graph_builder.py:50-65 | Every node of the language variant is reachable from START, and END is reachable from it. |
| Graphs.SetupOnFreshBuilder | src/graphs/graph_builder.py:74-80 | On a new builder, "topic" compiles the topic variant and "language" the language variant. Any other use case leaves the graph empty, so compile fails for want of an entry point. |
| Graphs.SetupOtherUseCaseAddsNothing | src/graphs/graph_builder.py:74-80 | A use case other than "topic" and "language" adds no node, edge or branch, and only compiles what is there. |
| Graphs.SetupTwiceRaises | src/graphs/graph_builder.py:74-80 | Setting up the topic variant a second time on the same builder raises at the first `add_node("title_creation")`, and the graph is unchanged. |
| Graphs.GraphBuilder.constructor | src/graphs/graph_builder.py:13-15 | A new builder holds a new, empty StateGraph. |
| Graphs.GraphBuilder.BuildTopicGraph | src/graphs/graph_builder.py:18-33 | The builder's graph afterwards, and whether a call raised, are those of the topic declarations made in order on the graph it held, stopping at the first that raises. |
| Graphs.GraphBuilder.BuildLanguageGraph | src/graphs/graph_builder.py:35-67 | The builder's graph afterwards, and whether a call raised, are those of the language declarations made in order on the graph it held, stopping at the first that raises. |
| Graphs.GraphBuilder.SetupGraph | src/graphs/graph_builder.py:74-80 | The builder's graph and the compiled result (or the raised error) are those of `Setup` on the graph it held. |
| App.ShapeRequestCases | app.py:33-51 | The request is rejected, with the "Topic is required" message, exactly when the topic is missing or empty. An accepted request picks "language" exactly when the language is present and non-empty, and "topic" otherwise. The initial state has exactly the keys topic and current_language, holding the topic and the lower-cased language. |
| App.EmptyTopicRejected | app.py:33-37 | Without a topic the handler fails with InvalidRequest whatever the nodes would do, so no node runs. |
| App.BlogPostDefaults | app.py:55-57 | A missing blog gives title "untitled-blog" and content "". A record's missing title or content takes that default. Only a blog that is a plain string fails. |
| App.FirstNewline | app.py:77 | The index found is the first line break, or the length when there is none. |
| App.MarkdownRoundTrip | app.py:77 | A body written from a title without a line break reads back as that title and content. |
| App.ParseMarkdownSound | app.py:77 | Whatever reads back was written from a title without a line break, and writing it again gives the same body. |
| App.PostPathInLanguageFolder | app.py:67-74 | With a language that neither starts nor ends with '/', the file is `blogs/<language>/<slug>_<timestamp>.md`, with the language kept as it is. With an empty language it is `blogs/<slug>_<timestamp>.md`. |
| App.DotDotLanguageKept | app.py:67-74 | The language "../x" gives the path `blogs/../x/<slug>_<timestamp>.md`, which is outside `blogs/` once ".." is resolved. |
| App.AbsoluteLanguageLeavesBlogs | app.py:67-74 | A language starting with '/' replaces the `blogs` folder altogether, as `os.path.join` does. |
| App.DefaultTitleSlug | app.py:56-64 | The default title "untitled-blog" is its own slug. |
| App.CreateBlogs | app.py:31-80 | The handler's result is `Respond`: shape the request, set up a fresh builder for the chosen use case, invoke the compiled graph, and save the post under its slug. |
| App.SavedPostShape | app.py:55-77 | A saved post's path holds the slug of the blog's title, and that slug is a slug in the sense above. The body is "# " + title + "\n\n" + content, and it reads back as the blog's title and content when the title has no line break. |

## Left out

- The FastAPI app, `request.json()`, the exception handlers and the uvicorn entry point (app.py:17-21, 26-32, 82-92) are HTTP plumbing. The handler's exceptions become `Failure` values.
- `os.makedirs` and the file write (app.py:70, 76-77) are filesystem side effects. The model computes the path and the body the file would get.
- `datetime.now()` (app.py:73) is a clock, so the timestamp is a string parameter.
- Environment variables, `load_dotenv`, `print` and the log calls (app.py:15-16, 23-24, 39, 52, 78; src/graphs/graph_builder.py:23) have no logic.
- `GroqLLM` and `get_llm()` (app.py:41-42) build a language-model client on every request, after the topic check. They are not modelled, so `App.Respond` has no error case for a client that fails to build. In the source that failure ends the request before any graph is built.
- The `llm` field (src/graphs/graph_builder.py:14) is not modelled.
- The module-level graph (src/graphs/graph_builder.py:84-90) builds a client and a graph at import time for the studio tool. It is not modelled.
- The `blog_node_obj` field is not kept. The nodes record which `BlogNode` method they call, and the walk is given one `BlogNode` for all of them. In the source, the translation lambdas (src/graphs/graph_builder.py:45-46) look up `self.blog_node_obj` when they are called, not when they are declared. That sharing matches the source only because the handler sets up each fresh builder once (app.py:43-50). A builder rebuilt with a new `BlogNode` would send its translations to the newer object, and the model does not capture that.
- The `BlogNode` bodies and `route_decision` call the language model and are not part of this model. They are arbitrary functions, and `route_decision` is assumed not to raise.
- Slug.LowerChar: Python's `lower()` is Unicode-aware, and `\s` and `strip()` accept Unicode whitespace. The model lowers only A-Z and treats only ASCII whitespace as whitespace. Python lowers a few non-ASCII letters to ASCII ones, such as 'İ' (U+0130) to "i̇" and the Kelvin sign (U+212A) to 'k'. Those letters survive line 62 in the source but are deleted in the model.
- App.ShapeRequest: JSON values that are not strings are not modelled. A non-string `current_language` would raise on `.lower()`, and a non-string truthy topic would be accepted.
- The blog value is a record of string fields. A `Blog` object without `.get`, or fields that are not strings, is not modelled beyond the plain-string case, which fails.
- langgraph's `StateGraph`, `compile()` and `invoke()` are a library that is not part of this model. `LangGraph` states its assumed behaviour:
  - The walk is sequential, not parallel supersteps.
  - Fan-out and a dead end are errors.
  - The recursion limit counts nodes run (25).
  - Branches are keyed by source, with one branch per source.
  - Node updates are merged by shallow overwrite, without reducers and without filtering input keys.
- compile's checks for unreachable nodes are not modelled. Reachability of every node from START, and of END from every node, is proved instead for both variants (`Graphs.TopicGraphConnected`, `Graphs.LanguageGraphConnected`).
- An unknown use case reaches `compile` on an empty graph. The model has compile fail there for want of an entry point, and the handler never passes one.
- Because the handler only ever builds a fresh builder with "topic" or "language", a compile failure cannot reach its result. The model therefore has no error case for it.
- A language starting with '/', such as "/tmp", replaces the `blogs` folder in the path (`App.AbsoluteLanguageLeavesBlogs`).
- A language such as "../x" gives the path "blogs/../x/...", which leaves `blogs/` only once the filesystem resolves ".." (`App.DotDotLanguageKept`). Path resolution is not modelled, and the source has no guard for either case.
