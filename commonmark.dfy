/**
 * `CommonMarkRenderer` (src/commonmark.rs): the same code-block pass as the site renderer, over
 * the default syntaxes only and with a plain `<pre><code>` container.
 */
module CommonMark {
  import opened Wrappers
  import Syntect
  import opened CodeBlocks

  datatype CommonMarkError = SyntectError(cause: Syntect.SyntectError)

  datatype CommonMarkRenderer = CommonMarkRenderer(generator: Syntect.Generator)

  /** The container around highlighted code. */
  function Wrap(body: string): string {
    "<pre><code>" + body + "</code></pre>"
  }

  /** Everything between the container's tags is the highlighted code, so the code can be read back. */
  function Unwrap(html: string): Option<string> {
    if |html| >= 24 && html[..11] == "<pre><code>" && html[|html| - 13..] == "</code></pre>"
    then Some(html[11..|html| - 13])
    else None
  }

  lemma UnwrapWrap(body: string)
    ensures Unwrap(Wrap(body)) == Some(body)
  {
    var w := Wrap(body);
    assert w[..11] == "<pre><code>";
    assert w[|w| - 13..] == "</code></pre>";
    assert w[11..|w| - 13] == body;
  }

  /** `highlight_code`: the generator's HTML for the code, wrapped; or the generator's error. */
  function HighlightCode(cm: CommonMarkRenderer, code: string, language: string): (r: Result<string, CommonMarkError>)
    ensures r.Err? <==> Syntect.Highlight(cm.generator, language, code).Err?
    ensures r.Err? ==> r.error == SyntectError(Syntect.Highlight(cm.generator, language, code).error)
    ensures r.Ok? ==> Unwrap(r.value) == Some(Syntect.Highlight(cm.generator, language, code).value)
  {
    match Syntect.Highlight(cm.generator, language, code)
    case Err(e) => Err(SyntectError(e))
    case Ok(body) => UnwrapWrap(body); Ok(Wrap(body))
  }

  function Highlighter(cm: CommonMarkRenderer): (string, string) -> Result<string, CommonMarkError> {
    (code, language) => HighlightCode(cm, code, language)
  }

  /** `render_to_html`: parse, rewrite the code blocks, write HTML; a highlighting error is the result. */
  function RenderToHtml(cm: CommonMarkRenderer, cmark: Pulldown, s: string): (r: Result<string, CommonMarkError>)
    ensures r.Err? <==> Rewrite(Highlighter(cm), cmark.parse(s)).Err?
    ensures r.Err? ==> r.error == Rewrite(Highlighter(cm), cmark.parse(s)).error
    ensures r.Ok? ==>
      var events := Rewrite(Highlighter(cm), cmark.parse(s)).value;
      r.value == cmark.pushHtml(events) && NoCodeBlocks(events) && Structure(events) == Structure(cmark.parse(s)) &&
      Fills(events, Layout(Initial, cmark.parse(s)))
  {
    var events :- Rewrite(Highlighter(cm), cmark.parse(s));
    Ok(cmark.pushHtml(events))
  }

  /** A document without code blocks is written exactly as parsed. */
  lemma PlainDocument(cm: CommonMarkRenderer, cmark: Pulldown, s: string)
    requires NoCodeBlocks(cmark.parse(s))
    ensures RenderToHtml(cm, cmark, s) == Ok(cmark.pushHtml(cmark.parse(s)))
  {
    PassThrough(Highlighter(cm), Initial, cmark.parse(s));
  }

  /**
   * A code block is written as one raw-HTML event holding the highlighted code of its text in
   * a `<pre><code>` container, from which that code can be read back; a highlighting error fails
   * the whole rendering.
   */
  lemma RenderBlock(cm: CommonMarkRenderer, cmark: Pulldown, s: string,
                    before: seq<Event>, start: CodeBlockKind, ts: seq<string>, end: CodeBlockKind, after: seq<Event>)
    requires cmark.parse(s) == before + Block(start, ts, end) + after
    requires NoCodeBlocks(before)
    ensures Syntect.Highlight(cm.generator, Language(end), CodeBlocks.Concat(ts)).Err? ==>
      RenderToHtml(cm, cmark, s) == Err(SyntectError(Syntect.Highlight(cm.generator, Language(end), CodeBlocks.Concat(ts)).error))
    ensures Syntect.Highlight(cm.generator, Language(end), CodeBlocks.Concat(ts)).Ok? ==>
      var body := Syntect.Highlight(cm.generator, Language(end), CodeBlocks.Concat(ts)).value;
      Unwrap(Wrap(body)) == Some(body) &&
      RenderToHtml(cm, cmark, s) ==
        match Rewrite(Highlighter(cm), after)
        case Err(e) => Err(e)
        case Ok(rest) => Ok(cmark.pushHtml(before + [Html(Wrap(body))] + rest))
  {
    RewriteBlock(Highlighter(cm), before, start, ts, end, after);
    if Syntect.Highlight(cm.generator, Language(end), CodeBlocks.Concat(ts)).Ok? {
      UnwrapWrap(Syntect.Highlight(cm.generator, Language(end), CodeBlocks.Concat(ts)).value);
    }
  }
}
