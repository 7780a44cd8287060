/** app.py, the POST /blogs handler: shaping the request into a use case and
    an initial state, reading the generated blog out of the final state, and
    the name and body of the markdown file it is saved to. The HTTP layer,
    the language-model client and the filesystem writes are not part of this
    model; the timestamp is a parameter. */
module App {
  import opened Wrappers
  import opened BlogState
  import opened LangGraph
  import opened Graphs
  import Slug

  const TopicRequired := "Topic is required to generate a blog."
  const DefaultTitle := "untitled-blog"
  const BlogsFolder := "blogs"

  /** The two fields of the JSON body the handler reads, each absent or a
      string. */
  datatype Request = Request(topic: Option<string>, currentLanguage: Option<string>)

  /** The use case handed to setup_graph and the state handed to invoke. */
  datatype Plan = Plan(usecase: string, initial: State)

  datatype AppError =
    | InvalidRequest(message: string)
    | WalkFailed(walkError: WalkError)
    | BlogNotARecord

  /** The language as the handler holds it after line 34: lower-cased, empty
      when absent. */
  function RequestLanguage(req: Request): string {
    Slug.Lower(req.currentLanguage.GetOr(""))
  }

  /** Lines 33-51 up to the invoke: an empty or missing topic is rejected;
      otherwise a non-empty language selects "language" and an empty one
      "topic", and the initial state holds the topic and the language. */
  function ShapeRequest(req: Request): Result<Plan, AppError> {
    var topic := req.topic.GetOr("");
    var language := RequestLanguage(req);
    if topic == [] then Failure(InvalidRequest(TopicRequired))
    else if language != [] then
      Success(Plan(LanguageUseCase, map[TopicKey := Text(topic), LanguageKey := Text(language)]))
    else
      Success(Plan(TopicUseCase, map[TopicKey := Text(topic), LanguageKey := Text(Slug.Lower(language))]))
  }

  /** The request is rejected exactly when the topic is missing or empty; an
      accepted request picks "language" exactly when the language is present
      and non-empty, and "topic" otherwise; either way the initial state has
      exactly the keys topic and current_language, holding the topic as sent
      and the language lower-cased. */
  lemma ShapeRequestCases(req: Request)
    ensures var r := ShapeRequest(req);
      && (r.Failure? <==> req.topic == None || req.topic == Some(""))
      && (r.Failure? ==> r.error == InvalidRequest(TopicRequired))
      && (r.Success? ==>
            && (r.value.usecase == LanguageUseCase <==> req.currentLanguage.Some? && req.currentLanguage.value != "")
            && (r.value.usecase == TopicUseCase <==> !(req.currentLanguage.Some? && req.currentLanguage.value != ""))
            && r.value.initial.Keys == {TopicKey, LanguageKey}
            && r.value.initial[TopicKey] == Text(req.topic.value)
            && r.value.initial[LanguageKey] == Text(Slug.Lower(req.currentLanguage.GetOr(""))))
  {
    Slug.LowerIdempotent(req.currentLanguage.GetOr(""));
  }

  // ----- the saved post -----

  datatype Post = Post(title: string, content: string)

  /** Lines 55-57: the blog record, or an empty one when the state has none;
      its title, or "untitled-blog"; its content, or "". A blog that is a
      plain string has no .get and the handler fails. */
  function BlogPost(state: State): Result<Post, AppError> {
    var blog := if BlogKey in state then state[BlogKey] else Record(map[]);
    match blog
    case Text(_) => Failure(BlogNotARecord)
    case Record(fields) =>
      Success(Post(
        if TitleKey in fields then fields[TitleKey] else DefaultTitle,
        if ContentKey in fields then fields[ContentKey] else ""))
  }

  /** A missing blog reads as an empty record, a record's missing title and
      content take their defaults, and only a blog that is a plain string
      fails. */
  lemma BlogPostDefaults(state: State)
    ensures BlogPost(state).Failure? <==> BlogKey in state && state[BlogKey].Text?
    ensures BlogKey !in state ==> BlogPost(state) == Success(Post(DefaultTitle, ""))
    ensures BlogKey in state && state[BlogKey].Record? ==>
      var fields := state[BlogKey].fields;
      && BlogPost(state).value.title == (if TitleKey in fields then fields[TitleKey] else DefaultTitle)
      && BlogPost(state).value.content == (if ContentKey in fields then fields[ContentKey] else "")
  {
  }

  /** The file body, line 77. */
  function Markdown(post: Post): string {
    "# " + post.title + "\n\n" + post.content
  }

  /** The index of the first line break, or the length when there is none. */
  function FirstNewline(s: string): (i: nat)
    ensures i <= |s| && (i < |s| ==> s[i] == '\n')
    ensures forall j :: 0 <= j < i ==> s[j] != '\n'
  {
    if s == [] || s[0] == '\n' then 0 else 1 + FirstNewline(s[1..])
  }

  /** Reads a body back: "# ", a title up to the first line break, a blank
      line, and the content. */
  function ParseMarkdown(body: string): Option<Post> {
    if |body| < 2 || body[..2] != "# " then None
    else
      var rest := body[2..];
      var i := FirstNewline(rest);
      if i + 2 <= |rest| && rest[i..i + 2] == "\n\n" then Some(Post(rest[..i], rest[i + 2..]))
      else None
  }

  /** A title without a line break is read back as it was written, together
      with the content. */
  lemma MarkdownRoundTrip(post: Post)
    requires '\n' !in post.title
    ensures ParseMarkdown(Markdown(post)) == Some(post)
  {
    var body := Markdown(post);
    var rest := body[2..];
    assert rest == post.title + "\n\n" + post.content;
    var i := FirstNewline(rest);
    assert rest[|post.title|] == '\n';
    assert forall j :: 0 <= j < |post.title| ==> rest[j] == post.title[j];
    assert i == |post.title|;
    assert rest[..i] == post.title;
    assert rest[i + 2..] == post.content;
  }

  /** Whatever reads back was written from a title without a line break. */
  lemma ParseMarkdownSound(body: string)
    requires ParseMarkdown(body).Some?
    ensures '\n' !in ParseMarkdown(body).value.title
    ensures Markdown(ParseMarkdown(body).value) == body
  {
    var rest := body[2..];
    var i := FirstNewline(rest);
    var post := ParseMarkdown(body).value;
    assert post.title == rest[..i];
    assert body == body[..2] + rest;
    assert rest == rest[..i] + rest[i..i + 2] + rest[i + 2..];
  }

  // ----- the file name -----

  /** os.path.join on two POSIX paths: an absolute second part replaces the
      first; otherwise they are joined with one '/'. */
  function PathJoin(a: string, b: string): string {
    if b != [] && b[0] == '/' then b
    else if a == [] || a[|a| - 1] == '/' then a + b
    else a + "/" + b
  }

  function FileName(slug: string, timestamp: string): string {
    slug + "_" + timestamp + ".md"
  }

  /** Lines 67 and 74. */
  function PostPath(language: string, slug: string, timestamp: string): string {
    PathJoin(PathJoin(BlogsFolder, language), FileName(slug, timestamp))
  }

  /** With a language that neither starts nor ends with '/', the post lands
      in blogs/<language>/, or in blogs/ when the language is empty. The
      language is kept as it is, so "../x" gives "blogs/../x/". */
  lemma PostPathInLanguageFolder(language: string, slug: string, timestamp: string)
    requires language == [] || (language[0] != '/' && language[|language| - 1] != '/')
    requires Slug.AllSlugChars(slug)
    ensures PostPath(language, slug, timestamp) ==
      (if language == [] then "blogs/" else "blogs/" + language + "/") + FileName(slug, timestamp)
  {
    var name := FileName(slug, timestamp);
    assert name[0] != '/' by {
      if slug != [] {
        assert name[0] == slug[0];
      } else {
        assert name[0] == '_';
      }
    }
  }

  /** A relative language with ".." is joined as it is: the path names the
      blogs folder's parent only once the filesystem resolves "..". */
  lemma DotDotLanguageKept(language: string, slug: string, timestamp: string)
    requires language == "../x"
    requires Slug.AllSlugChars(slug)
    ensures PostPath(language, slug, timestamp) == "blogs/../x/" + FileName(slug, timestamp)
  {
    PostPathInLanguageFolder(language, slug, timestamp);
  }

  /** A language that starts with '/' replaces the blogs folder altogether. */
  lemma AbsoluteLanguageLeavesBlogs(language: string, slug: string, timestamp: string)
    requires language != [] && language[0] == '/'
    ensures PostPath(language, slug, timestamp) == PathJoin(language, FileName(slug, timestamp))
  {
  }

  /** The default title is already a slug. */
  lemma DefaultTitleSlug()
    ensures Slug.Slugify(DefaultTitle) == DefaultTitle
  {
    var t := DefaultTitle;
    assert Slug.IsSlug(t) by {
      forall i | 0 <= i < |t| ensures Slug.IsSlugChar(t[i]) {
      }
      forall i | 0 <= i < |t| - 1
        ensures !(Slug.InClass(Slug.Hyphen, t[i]) && Slug.InClass(Slug.Hyphen, t[i + 1]))
      {
      }
    }
    Slug.SlugFixesSlugs(t);
  }

  // ----- the handler -----

  /** What the handler saves and returns: the file's path and body, and the
      final state. */
  datatype Saved = Saved(path: string, body: string, state: State)

  /** The handler's result, with the graph a fresh builder's setup_graph
      compiles for the chosen use case. */
  function Respond(req: Request, bn: BlogNode, timestamp: string): Result<Saved, AppError> {
    match ShapeRequest(req)
    case Failure(e) => Failure(e)
    case Success(plan) =>
      var g := if plan.usecase == TopicUseCase then TopicGraph() else LanguageGraph();
      var run := Invoke(g, Callables(bn), plan.initial);
      if run.Aborted? then Failure(WalkFailed(run.error))
      else match BlogPost(run.state)
        case Failure(e) => Failure(e)
        case Success(post) =>
          Success(Saved(PostPath(RequestLanguage(req), Slug.Slugify(post.title), timestamp), Markdown(post), run.state))
  }

  /** Lines 31-80 without the I/O: shape the request, set up a fresh
      builder's graph, invoke it, and name and format the post. */
  method CreateBlogs(req: Request, bn: BlogNode, timestamp: string) returns (r: Result<Saved, AppError>)
    ensures r == Respond(req, bn, timestamp)
  {
    var plan :- ShapeRequest(req);
    ShapeRequestCases(req);
    var builder := new GraphBuilder();
    var compiled := builder.SetupGraph(plan.usecase);
    SetupOnFreshBuilder(plan.usecase);
    assert compiled == Success(if plan.usecase == TopicUseCase then TopicGraph() else LanguageGraph());
    var run := Invoke(compiled.value, Callables(bn), plan.initial);
    if run.Aborted? {
      return Failure(WalkFailed(run.error));
    }
    var post :- BlogPost(run.state);
    var slug := Slug.Slugify(post.title);
    r := Success(Saved(PostPath(RequestLanguage(req), slug, timestamp), Markdown(post), run.state));
  }

  /** A request without a topic is rejected whatever the nodes would do, so
      no node runs. */
  lemma EmptyTopicRejected(req: Request, bn: BlogNode, timestamp: string)
    requires req.topic == None || req.topic == Some("")
    ensures Respond(req, bn, timestamp) == Failure(InvalidRequest(TopicRequired))
  {
    ShapeRequestCases(req);
  }

  /** A saved post's file name is a slug followed by the timestamp, and its
      body reads back as the blog's title and content. */
  lemma SavedPostShape(req: Request, bn: BlogNode, timestamp: string)
    requires Respond(req, bn, timestamp).Success?
    ensures var saved := Respond(req, bn, timestamp).value;
      var post := BlogPost(saved.state).value;
      && BlogPost(saved.state).Success?
      && saved.path == PostPath(RequestLanguage(req), Slug.Slugify(post.title), timestamp)
      && Slug.IsSlug(Slug.Slugify(post.title))
      && saved.body == "# " + post.title + "\n\n" + post.content
      && ('\n' !in post.title ==> ParseMarkdown(saved.body) == Some(post))
  {
    var plan := ShapeRequest(req).value;
    var g := if plan.usecase == TopicUseCase then TopicGraph() else LanguageGraph();
    var run := Invoke(g, Callables(bn), plan.initial);
    var post := BlogPost(run.state).value;
    var saved := Respond(req, bn, timestamp).value;
    assert saved == Saved(PostPath(RequestLanguage(req), Slug.Slugify(post.title), timestamp), Markdown(post), run.state);
    Slug.SlugifyIsSlug(post.title);
    if '\n' !in post.title {
      MarkdownRoundTrip(post);
    }
  }
}
