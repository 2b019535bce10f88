/**
 * The parts of the syntect crate that the renderers rely on. The classed HTML generator is
 * foreign: it is an oracle here, asked line by line, whose state after some lines is
 * determined by those lines. `LinesWithEndings` is simple enough to define.
 */
module Syntect {
  import opened Wrappers

  datatype SyntectError = SyntectError(message: string)

  /**
   * A `ClassedHTMLGenerator` for one syntax set. `parseLine(language, earlier, line)` is the
   * error, if any, of feeding `line` after the lines `earlier`; `finalize(language, lines)` is
   * the HTML it produces once all of `lines` have been fed.
   */
  datatype Generator = Generator(
    parseLine: (string, seq<string>, string) -> Option<SyntectError>,
    finalize: (string, seq<string>) -> string)

  /** The length of the first line of `s`, its '\n' included. */
  function LineEnd(s: string): (n: nat)
    requires s != []
    ensures 0 < n <= |s|
    ensures forall i :: 0 <= i < n - 1 ==> s[i] != '\n'
    ensures n < |s| ==> s[n - 1] == '\n'
  {
    if s[0] == '\n' || |s| == 1 then 1 else 1 + LineEnd(s[1..])
  }

  /** `LinesWithEndings::from(s)`: the lines of `s`, each keeping its '\n'; no lines for the empty string. */
  function LinesWithEndings(s: string): (r: seq<string>)
    ensures |r| <= |s| && (r == [] <==> s == [])
    ensures forall k :: 0 <= k < |r| ==> r[k] != []
    decreases |s|
  {
    if s == [] then [] else var n := LineEnd(s); [s[..n]] + LinesWithEndings(s[n..])
  }

  function Concat(lines: seq<string>): string {
    if lines == [] then [] else lines[0] + Concat(lines[1..])
  }

  /** Splitting into lines loses nothing: the lines put back together are the input. */
  lemma {:induction false} LinesConcat(s: string)
    ensures Concat(LinesWithEndings(s)) == s
    decreases |s|
  {
    if s != [] {
      var n := LineEnd(s);
      LinesConcat(s[n..]);
      assert LinesWithEndings(s)[1..] == LinesWithEndings(s[n..]);
      assert s == s[..n] + s[n..];
    }
  }

  /** Every line is non-empty, holds no '\n' before its end, and every line but the last ends in '\n'. */
  lemma {:induction false} LinesShape(s: string)
    ensures forall k :: 0 <= k < |LinesWithEndings(s)| ==> LinesWithEndings(s)[k] != []
    ensures forall k, i :: 0 <= k < |LinesWithEndings(s)| && 0 <= i < |LinesWithEndings(s)[k]| - 1 ==> LinesWithEndings(s)[k][i] != '\n'
    ensures forall k :: 0 <= k < |LinesWithEndings(s)| - 1 ==> LinesWithEndings(s)[k][|LinesWithEndings(s)[k]| - 1] == '\n'
    decreases |s|
  {
    if s != [] {
      var n := LineEnd(s);
      LinesShape(s[n..]);
      var lines := LinesWithEndings(s);
      assert lines[1..] == LinesWithEndings(s[n..]);
      assert lines[0] == s[..n];
      if |lines| > 1 {
        assert s[n..] != [];
      }
    }
  }

  /** The first error the generator reports when fed `lines[i..]` after `lines[..i]`, if any. */
  function FirstError(g: Generator, language: string, lines: seq<string>, i: nat): Option<SyntectError>
    requires i <= |lines|
    decreases |lines| - i
  {
    if i == |lines| then None
    else match g.parseLine(language, lines[..i], lines[i])
      case Some(e) => Some(e)
      case None => FirstError(g, language, lines, i + 1)
  }

  /** The generator's HTML for `code`, or the error of the first line it could not parse. */
  function Highlight(g: Generator, language: string, code: string): (r: Result<string, SyntectError>)
    ensures r.Ok? <==>
      forall j :: 0 <= j < |LinesWithEndings(code)| ==>
        g.parseLine(language, LinesWithEndings(code)[..j], LinesWithEndings(code)[j]).None?
    ensures r.Ok? ==> r.value == g.finalize(language, LinesWithEndings(code))
  {
    var lines := LinesWithEndings(code);
    FirstErrorIsFirstFailingLine(g, language, lines, 0);
    match FirstError(g, language, lines, 0)
    case Some(e) => Err(e)
    case None => Ok(g.finalize(language, lines))
  }

  /** Highlighting fails exactly when some line fails after all lines before it went through, with that line's error. */
  lemma {:induction false} FirstErrorIsFirstFailingLine(g: Generator, language: string, lines: seq<string>, i: nat)
    requires i <= |lines|
    ensures FirstError(g, language, lines, i).None? <==>
      forall j :: i <= j < |lines| ==> g.parseLine(language, lines[..j], lines[j]).None?
    ensures FirstError(g, language, lines, i).Some? ==>
      exists j :: i <= j < |lines| &&
        g.parseLine(language, lines[..j], lines[j]) == FirstError(g, language, lines, i) &&
        forall k :: i <= k < j ==> g.parseLine(language, lines[..k], lines[k]).None?
    decreases |lines| - i
  {
    if i < |lines| {
      FirstErrorIsFirstFailingLine(g, language, lines, i + 1);
    }
  }

  /** The loop of `highlight_code`: feed the generator line by line, stop at the first error, then finalize. */
  method HighlightLines(g: Generator, language: string, code: string) returns (r: Result<string, SyntectError>)
    ensures r == Highlight(g, language, code)
  {
    var lines := LinesWithEndings(code);
    var i := 0;
    while i < |lines|
      invariant 0 <= i <= |lines|
      invariant FirstError(g, language, lines, 0) == FirstError(g, language, lines, i)
    {
      var failure := g.parseLine(language, lines[..i], lines[i]);
      if failure.Some? {
        return Err(failure.value);
      }
      i := i + 1;
    }
    r := Ok(g.finalize(language, lines));
  }
}
