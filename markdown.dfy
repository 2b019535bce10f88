/** `MarkdownRenderer` (src/markdown.rs): the renderer used for pages and posts. */
module Markdown {
  import opened Wrappers
  import Syntect
  import opened CodeBlocks

  datatype MarkdownError =
    | SyntectError(cause: Syntect.SyntectError)
    | SyntectLoadingError(message: string)

  /** A renderer holds the syntax set it loaded, seen here through the generator it yields. */
  datatype MarkdownRenderer = MarkdownRenderer(generator: Syntect.Generator)

  /**
   * `MarkdownRenderer::new`: with a syntaxes folder configured, the default syntaxes plus those
   * loaded from the folder (which may fail); without one, the defaults only.
   */
  function NewRenderer(syntaxesPath: Option<string>, defaults: Syntect.Generator,
                       loadFolder: string -> Result<Syntect.Generator, string>): (r: Result<MarkdownRenderer, MarkdownError>)
    ensures syntaxesPath.None? ==> r == Ok(MarkdownRenderer(defaults))
    ensures syntaxesPath.Some? ==>
      (r.Err? <==> loadFolder(syntaxesPath.value).Err?) &&
      (r.Err? ==> r.error == SyntectLoadingError(loadFolder(syntaxesPath.value).error)) &&
      (r.Ok? ==> r.value.generator == loadFolder(syntaxesPath.value).value)
  {
    match syntaxesPath
    case None => Ok(MarkdownRenderer(defaults))
    case Some(path) =>
      match loadFolder(path)
      case Err(message) => Err(SyntectLoadingError(message))
      case Ok(g) => Ok(MarkdownRenderer(g))
  }

  /** The class on the inner `code` element: a marker naming the language, empty when there is none. */
  function LanguageClass(language: string): string {
    if language != "" then "syntax-" + language else ""
  }

  /** The container around highlighted code; `sh-code` is the class syntect styles. */
  function Wrap(language: string, body: string): string {
    "<pre class=\"sh-code\"><code class=\"" + LanguageClass(language) + "\">" + body + "</code></pre>"
  }

  /** `highlight_code`: the generator's HTML for the code, wrapped; or the generator's error. */
  function HighlightCode(md: MarkdownRenderer, code: string, language: string): (r: Result<string, MarkdownError>)
    ensures r.Err? <==> Syntect.Highlight(md.generator, language, code).Err?
    ensures r.Err? ==> r.error == SyntectError(Syntect.Highlight(md.generator, language, code).error)
    ensures r.Ok? ==> r.value == Wrap(language, Syntect.Highlight(md.generator, language, code).value)
  {
    match Syntect.Highlight(md.generator, language, code)
    case Err(e) => Err(SyntectError(e))
    case Ok(body) => Ok(Wrap(language, body))
  }

  function Highlighter(md: MarkdownRenderer): (string, string) -> Result<string, MarkdownError> {
    (code, language) => HighlightCode(md, code, language)
  }

  /** `render_to_html`: parse, rewrite the code blocks, write HTML; a highlighting error is the result. */
  function RenderToHtml(md: MarkdownRenderer, cmark: Pulldown, s: string): (r: Result<string, MarkdownError>)
    ensures r.Err? <==> Rewrite(Highlighter(md), cmark.parse(s)).Err?
    ensures r.Err? ==> r.error == Rewrite(Highlighter(md), cmark.parse(s)).error
    ensures r.Ok? ==>
      var events := Rewrite(Highlighter(md), cmark.parse(s)).value;
      r.value == cmark.pushHtml(events) && NoCodeBlocks(events) && Structure(events) == Structure(cmark.parse(s)) &&
      Fills(events, Layout(Initial, cmark.parse(s)))
  {
    var events :- Rewrite(Highlighter(md), cmark.parse(s));
    Ok(cmark.pushHtml(events))
  }

  /** A document without code blocks is written exactly as parsed. */
  lemma PlainDocument(md: MarkdownRenderer, cmark: Pulldown, s: string)
    requires NoCodeBlocks(cmark.parse(s))
    ensures RenderToHtml(md, cmark, s) == Ok(cmark.pushHtml(cmark.parse(s)))
  {
    PassThrough(Highlighter(md), Initial, cmark.parse(s));
  }

  /**
   * A code block in a document is written as one raw-HTML event: the highlighted code of its
   * text in the `sh-code` container marked with its language. If highlighting fails, so does the
   * whole rendering, with that error.
   */
  lemma RenderBlock(md: MarkdownRenderer, cmark: Pulldown, s: string,
                    before: seq<Event>, start: CodeBlockKind, ts: seq<string>, end: CodeBlockKind, after: seq<Event>)
    requires cmark.parse(s) == before + Block(start, ts, end) + after
    requires NoCodeBlocks(before)
    ensures Syntect.Highlight(md.generator, Language(end), CodeBlocks.Concat(ts)).Err? ==>
      RenderToHtml(md, cmark, s) == Err(SyntectError(Syntect.Highlight(md.generator, Language(end), CodeBlocks.Concat(ts)).error))
    ensures Syntect.Highlight(md.generator, Language(end), CodeBlocks.Concat(ts)).Ok? ==>
      var html := Wrap(Language(end), Syntect.Highlight(md.generator, Language(end), CodeBlocks.Concat(ts)).value);
      RenderToHtml(md, cmark, s) ==
        match Rewrite(Highlighter(md), after)
        case Err(e) => Err(e)
        case Ok(rest) => Ok(cmark.pushHtml(before + [Html(html)] + rest))
  {
    RewriteBlock(Highlighter(md), before, start, ts, end, after);
  }

  /** A fenced block gets `syntax-<info>` as its class, an indented one an empty class. */
  lemma BlockClasses(md: MarkdownRenderer, code: string, info: string)
    requires Syntect.Highlight(md.generator, info, code).Ok? && Syntect.Highlight(md.generator, "", code).Ok?
    requires info != ""
    ensures HighlightCode(md, code, Language(Fenced(info))) ==
      Ok("<pre class=\"sh-code\"><code class=\"syntax-" + info + "\">" + Syntect.Highlight(md.generator, info, code).value + "</code></pre>")
    ensures HighlightCode(md, code, Language(Indented)) ==
      Ok("<pre class=\"sh-code\"><code class=\"\">" + Syntect.Highlight(md.generator, "", code).value + "</code></pre>")
  {
    FencedClass(md, code, info);
    IndentedClass(md, code);
  }

  lemma FencedClass(md: MarkdownRenderer, code: string, info: string)
    requires Syntect.Highlight(md.generator, info, code).Ok? && info != ""
    ensures HighlightCode(md, code, info) ==
      Ok("<pre class=\"sh-code\"><code class=\"syntax-" + info + "\">" + Syntect.Highlight(md.generator, info, code).value + "</code></pre>")
  {
    var quote := "<pre class=\"sh-code\"><code class=\"";
    var body := Syntect.Highlight(md.generator, info, code).value;
    assert HighlightCode(md, code, info) == Ok(Wrap(info, body));
    assert LanguageClass(info) == "syntax-" + info;
    assert Wrap(info, body) == quote + "syntax-" + info + "\">" + body + "</code></pre>";
    assert quote + "syntax-" == "<pre class=\"sh-code\"><code class=\"syntax-";
  }

  lemma IndentedClass(md: MarkdownRenderer, code: string)
    requires Syntect.Highlight(md.generator, "", code).Ok?
    ensures HighlightCode(md, code, "") ==
      Ok("<pre class=\"sh-code\"><code class=\"\">" + Syntect.Highlight(md.generator, "", code).value + "</code></pre>")
  {
    var quote := "<pre class=\"sh-code\"><code class=\"";
    var body := Syntect.Highlight(md.generator, "", code).value;
    assert HighlightCode(md, code, "") == Ok(Wrap("", body));
    assert LanguageClass("") == "";
    assert Wrap("", body) == quote + "\">" + body + "</code></pre>";
    assert quote + "\">" == "<pre class=\"sh-code\"><code class=\"\">";
  }

  /**
   * Highlighting fails exactly when the generator rejects some line of the code, and then with
   * the error of the first line it rejects.
   */
  lemma HighlightFailsOnLine(md: MarkdownRenderer, code: string, language: string)
    ensures HighlightCode(md, code, language).Err? <==>
      exists j :: 0 <= j < |Syntect.LinesWithEndings(code)| &&
        md.generator.parseLine(language, Syntect.LinesWithEndings(code)[..j], Syntect.LinesWithEndings(code)[j]).Some?
    ensures HighlightCode(md, code, language).Err? ==>
      exists j :: 0 <= j < |Syntect.LinesWithEndings(code)| &&
        (forall k :: 0 <= k < j ==>
          md.generator.parseLine(language, Syntect.LinesWithEndings(code)[..k], Syntect.LinesWithEndings(code)[k]).None?) &&
        md.generator.parseLine(language, Syntect.LinesWithEndings(code)[..j], Syntect.LinesWithEndings(code)[j]) ==
          Some(HighlightCode(md, code, language).error.cause)
  {
    Syntect.FirstErrorIsFirstFailingLine(md.generator, language, Syntect.LinesWithEndings(code), 0);
  }
}
