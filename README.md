# pbe content core, modelled in Dafny

pbe is a small blog engine. Its core reads page and post records, renders each content file
(Markdown through pulldown-cmark with syntect highlighting, or raw HTML), and keeps the result in
an in-memory content index. The index answers the web routes: the content at a URL (redirect, then
post, then page), posts by tag, the latest post, the archive and the RSS feed. The index is rebuilt
wholesale when the configuration changes.

This project models that core:

- `Site` (site.dfy) models the content renderer's extension dispatch and the page, post and RSS
  records built from the configuration.
  - The two in-place lookup structures, `AlternateUrlMappings` and `PostsByTag`, are classes with a
    `map` field.
  - `SiteContent` is the index. Its static `New` runs the page and post loops of the build, and it
    has the index's queries.
  - `SiteService.RefreshContent` replaces the index only when a rebuild succeeds.
  - The loops are proved against a pure specification of the build: `Build`, `UrlIndex`, `Redirects`
    and `TagIndex`.
- `PostOrder` (post_order.dfy) models the stable descending-date sort of the posts as a permutation
  of configuration positions, built by insertion.
- `CodeBlocks` (codeblocks.dfy) models the code-block rewriting pass shared by `MarkdownRenderer`
  and `CommonMarkRenderer`. `HighlightCodeblocks` is the imperative loop with its in-block flag and
  buffer. `Rewrite` is its specification as a fold over the event stream.
- `Markdown` and `CommonMark` model the two renderers' `highlight_code` wrappers and
  `render_to_html`.
- `Syntect` models the line-by-line use of the syntect HTML generator, which is an oracle here.
- `Util` (util.dfy) models three pieces:
  - the three-format date parser, over an explicit fixed-width grammar, with round trips to the
    corresponding formatters;
  - the epoch-seconds conversion of a naive date-time;
  - `drop_trailing_slash`.
- `Decimal` and `Calendar` hold the zero-padded decimal digits and the naive date-time with its
  order.
- `Config` holds the configuration records, and `Wrappers` holds `Option` and `Result`.

These libraries are all parameters of the model:

- the file system, as `readFile: string -> Option<string>`;
- pulldown-cmark's parser and HTML writer, as `Pulldown`;
- the syntect generator, as `Generator`;
- the syntax-folder loader.

## Model

| member | source | states |
|---|---|---|
| Site.NewContentRenderer | src/site.rs:36-41 | The renderer fails exactly when the Markdown renderer could not be built, with that error wrapped; otherwise it holds that Markdown renderer. |
| Site.FileName | src/site.rs:48 | The file name of a path is the part after its last '/': a suffix of the path containing no '/', preceded by '/' unless it is the whole path. |
| Site.Extension | src/site.rs:48 | A path has no extension exactly when its file name is `..`, has no '.', or is a hidden name whose only '.' is the leading one. |
| Site.ExtensionSuffix | src/site.rs:48 | An extension is what follows a '.' at the end of the path, and contains neither '.' nor '/'. |
| Site.NameExtension | src/site.rs:48 | The extension of a file name is the part after its last '.', unless that '.' starts the name; it is absent for `..`, for a name without '.', and for a hidden name with no other '.'. |
| Site.FileNameAfterSlash | src/site.rs:48 | For `dir + "/" + name` with no '/' in `name`, the file name is `name`. |
| Site.MarkdownExtension | src/site.rs:48-49 | A file `dir/stem.md` has extension `md`, so it is rendered as Markdown. |
| Site.HiddenFileNoExtension | src/site.rs:48 | A file name that starts with '.' and has no other '.' has no extension, so it is served raw. |
| Site.DotlessNameNoExtension | src/site.rs:48-54 | A file name without '.' has no extension, so it is served raw. |
| Site.Render | src/site.rs:43-56 | An unreadable file gives an I/O error naming the path. A readable file whose extension is not `md` is returned verbatim. An `md` file gives the Markdown renderer's HTML, or its error wrapped with the path. An error is never the bare `MarkdownError` kind and always names the path. |
| Site.PostUrl | src/site.rs:145-151 | A post URL starts with '/' and ends with "/" + slug. |
| Site.PostUrlLayout | src/site.rs:145-151 | For a four-digit year, a post URL is "/" + 4-digit year + "/" + 2-digit month + "/" + 2-digit day + "/" + slug, with zero padding. |
| Site.PostUrlSpelled | src/site.rs:145-151 | The same layout, stated with the padded fields as strings. |
| Site.PostUrlInjective | src/site.rs:145-151 | Two posts with four-digit years get the same URL only when their year, month, day and slug all match. |
| Site.PostUrlExample | src/site.rs:145-151 | 2023-05-01 with slug `hello` gives `/2023/05/01/hello`. |
| Site.PostUrlPaddedYearExample | src/site.rs:146 | The year is zero-padded to four digits: year 987 gives `/0987/12/24/x`. |
| Site.PostTryFrom | src/site.rs:144-161 | The post fails exactly when rendering its file fails, with that error. Otherwise its URL is the padded date URL, its title, date and rendered content are copied, and missing tags become the empty list. |
| Site.PageTryFrom | src/site.rs:172-179 | The page fails exactly when rendering its file fails; otherwise its URL and title are copied verbatim and its content is the rendered file. |
| Site.RssMetadataFrom | src/site.rs:189-198 | All four RSS fields are copied. |
| Site.UrlIndexLast | src/site.rs:246-261 | A URL is a key of the URL table exactly when some item has it. Its value is an index in range whose item has that URL, and no later item has it: later inserts overwrite earlier ones. |
| Site.WithAlternatesGet | src/site.rs:97-101 | After adding alternate URLs, each listed URL maps to the target. Every other key keeps its presence and its value. |
| Site.RedirectsLast | src/site.rs:242-259 | A URL is a redirect exactly when some page or post lists it as an alternate. It redirects to the URL of the last item that lists it. |
| Site.WithTagLookup | src/site.rs:118-124 | Adding an index under one tag appends it to that tag's list, or starts the list `[index]`. Every other tag's list and presence is unchanged. |
| Site.WithTagsLookup | src/site.rs:126-130 | Adding an index under a tag list appends it once per occurrence of each tag. A tag is present afterwards exactly when it was before or is listed. |
| Site.TagIndexKeys | src/site.rs:262 | A tag is a key of the tag table exactly when some post carries it. |
| Site.TagIndexOrdered | src/site.rs:262 | Every tag's list holds only indices of existing posts, in non-decreasing order. |
| Site.TagIndexPositions | src/site.rs:262 | Post `i` is in a tag's list exactly when it carries that tag. |
| Site.TagIndexLists | src/site.rs:254-263 | Combines the three facts above for the tag table the post loop builds. |
| Site.TagIndexCount | src/site.rs:262 | Post `i`'s position occurs in a tag's list as many times as the post lists that tag. |
| Site.AlternateUrlMappings.constructor | src/site.rs:83-85 | Starts with no mappings. |
| Site.AlternateUrlMappings.Get | src/site.rs:88-90 | Returns `Some` exactly for mapped URLs, with the mapped value. |
| Site.AlternateUrlMappings.AddMapping | src/site.rs:93-95 | Inserts or overwrites one key and changes nothing else. |
| Site.AlternateUrlMappings.AddMappings | src/site.rs:97-101 | Every listed URL now gets the current URL, and every other URL's lookup is unchanged. A repeated key ends with the latest value. |
| Site.PostsByTag.constructor | src/site.rs:109-111 | Starts with no tags. |
| Site.PostsByTag.Get | src/site.rs:114-116 | Returns `Some` exactly for known tags, with their index list. |
| Site.PostsByTag.AddMapping | src/site.rs:118-124 | The tag's list becomes the old list with the index appended, or `[index]` if the tag was absent. Every other tag's lookup is unchanged. |
| Site.PostsByTag.AddMappings | src/site.rs:126-130 | The new table is the old one with the index added under each listed tag in turn. |
| Site.RenderAll | src/site.rs:239-240 | A successful rendering of a list has one result per record. |
| Site.RenderAllSpec | src/site.rs:239-255 | Rendering a list succeeds exactly when every record renders, and result `i` is record `i`'s rendering. On failure the error is that of the first record that fails. |
| Site.FirstFailure | src/site.rs:240-255 | If the first `i` records render and record `i` fails, the whole build fails with record `i`'s error; `?` aborts the loop. |
| Site.SortedPosts | src/site.rs:254 | The post records in listing order: one record per position of the sort order. |
| Site.SortedPostsSpec | src/site.rs:254 | The sorted post records are a permutation of the configured ones, and position `i` holds the record at the sort order's position `i`. |
| Site.RenderedPostsAt | src/site.rs:254-255 | Rendered post `i` is the rendering of the record the sort put at position `i`, with its date. |
| Site.RenderedPostsDescending | src/site.rs:254 | The rendered posts run newest first, and equal dates keep their configured order. |
| Site.RenderedPostsOrdered | src/site.rs:254-263 | The built post list is a permutation of the configured posts. Each post is the rendering of its record, dates are non-increasing, and the sort is stable. |
| Site.Build | src/site.rs:236-263 | A build succeeds exactly when all pages and then all posts render. The error is the pages' first error if a page fails, else the posts' first error. A successful build has one page per page record and one post per post record. |
| Site.SiteContent.constructor | src/site.rs:268-277 | Stores the seven built parts. |
| Site.SiteContent.BuiltIsValid | src/site.rs:239-264 | A built index satisfies its invariant: the URL tables index the lists, the tag table indexes the posts, and posts run newest first. It has one page per page record, with the record's URL, and one post per post record. |
| Site.SiteContent.GetPageByUrl | src/site.rs:280-282 | Returns `Some` exactly when some page has the URL; the page returned is the last page with that URL. The index lookup cannot fail. |
| Site.SiteContent.GetPostByUrl | src/site.rs:284-286 | Returns `Some` exactly when some post has the URL; the post returned is the last post with that URL. The index lookup cannot fail. |
| Site.SiteContent.GetContentAt | src/site.rs:288-298 | An alternate URL redirects, even if it is also a canonical URL, and only alternate URLs redirect. Any other URL gives the post found by URL, else the page found by URL, else nothing. A post with the URL wins over a page with it. The result is none exactly when the URL is not an alternate URL and no post or page has it. |
| Site.SiteContent.GetPostsOrderedByDate | src/site.rs:300-302 | The posts as stored, which run newest first. |
| Site.SiteContent.GetPostsWithTagOrderedByDate | src/site.rs:304-312 | Returns the stored posts at the positions the tag's list records, in that order, one per entry. So it holds only posts carrying the tag and every post carrying it, each as often as the post lists the tag, newest first. An unknown tag gives the empty list. |
| Site.SiteContent.GetLatestPost | src/site.rs:314-316 | None exactly when there are no posts. Otherwise it returns the first post, and no post is newer. |
| Site.SiteContent.FeedPosts | src/site.rs:408-411 | The feed lists the first `min(count, number of posts)` posts, in order, and no post left out is newer than one listed. |
| Site.SiteContent.New | src/site.rs:218-278 | The build fails exactly when rendering some page or post fails, with the first such error, and then nothing is built. On success it returns a fresh index built from the records. |
| Site.SiteContent.LoadPages | src/site.rs:236-248 | The page loop returns the rendered pages in configured order, the URL table of those pages, and the redirects the page records list. |
| Site.SiteContent.LoadPosts | src/site.rs:250-264 | The post loop returns the rendered posts in loop order, the URL table of those posts, the redirects extended by the post records, and the tag table of the posts. |
| Site.PageStep | src/site.rs:239-248 | One page iteration extends the rendered list, the URL table and the redirects exactly as the specification does. |
| Site.PostStep | src/site.rs:254-264 | One post iteration extends the rendered list, the URL table and the tag table exactly as the specification does. |
| Site.RegisterPost | src/site.rs:257-262 | Adds the post's alternate URLs when it lists some, and its index under each of its tags. |
| Site.RedirectsSnoc | src/site.rs:242-259 | One more item adds its alternate URLs, pointing at its URL, or leaves the redirects unchanged when it lists none. |
| Site.SiteService.constructor | src/site.rs:353-357 | Stores the renderer and the content. |
| Site.SiteService.New | src/site.rs:345-358 | Fails with the renderer's error when the Markdown renderer could not be built. Otherwise it fails exactly when the build fails. On success it holds a fresh index built from the records, and the service's invariant holds. |
| Site.SiteService.RefreshContent | src/site.rs:360-367 | Fails exactly when the rebuild fails, and then leaves the stored content untouched. On success it replaces the content with a fresh index built from the new records. The service's invariant holds afterwards on success, and is kept on failure. |
| PostOrder.PrecedesOrder | src/site.rs:254 | "Newer, or as new and configured earlier" is a strict total order on positions, which makes the stable sort well defined. |
| PostOrder.InsertMultiset | src/site.rs:254 | Inserting into the order adds exactly the new position. |
| PostOrder.InsertSorted | src/site.rs:254 | Inserting a new position into a sorted order keeps it sorted. |
| PostOrder.OrderOfElements | src/site.rs:254 | The order of the first `n` posts holds each of the positions `0..n` exactly once. |
| PostOrder.OrderOfSorted | src/site.rs:254 | The order of the first `n` posts is sorted. |
| PostOrder.OrderIsStableDescending | src/site.rs:254 | The listing order is a permutation of all positions. Every post comes after all newer ones, and posts of equal date keep their configured order. |
| PostOrder.SelectOrderIsPermutation | src/site.rs:254 | Taking the records in listing order loses and repeats nothing: the result is a permutation of the records. |
| PostOrder.SelectAt | src/site.rs:254 | Position `i` of the sorted records is the record at listing position `i`. |
| Calendar.EarlierIrreflexive | src/site.rs:254 | No date-time is earlier than itself. |
| Calendar.EarlierTransitive | src/site.rs:254 | "Earlier" is transitive. |
| Calendar.EarlierTotal | src/site.rs:254 | Two date-times are equal or one is earlier: the order the sort compares by is total. |
| Decimal.PadFits | src/site.rs:146 | Zero padding a number that fits the width gives exactly that many digits. |
| Decimal.NatOfFixedDigits | src/site.rs:146 | Reading back the zero-padded digits of a number that fits gives the number. |
| Decimal.FixedDigitsOfNatOf | src/util.rs:2 | Printing a parsed digit string at its own width gives the string back. |
| Decimal.FixedDigitsInjective | src/site.rs:146 | Different numbers that fit have different zero-padded spellings. |
| Util.ScanPrint | src/util.rs:2-12 | Scanning the printed fields of a format gives back those fields. |
| Util.PrintScan | src/util.rs:2-12 | Any string a format accepts is the printing of the fields it yields. |
| Util.ScanLength | src/util.rs:2-12 | A format accepts only strings of its exact length. |
| Util.ParseWithSeconds | src/util.rs:2 | A value parsed as `YYYY-MM-DD HH:MM:SS` is a valid date-time with a four-digit year. It fails only when the text does not match or a field is out of range. |
| Util.ParseWithMinutes | src/util.rs:7 | A value parsed as `YYYY-MM-DD HH:MM` is a valid date-time with a four-digit year and second 0. It fails only when the text does not match or a field is out of range. |
| Util.ParseDate | src/util.rs:12-13 | A value parsed as `YYYY-MM-DD` is a valid date with a four-digit year, at midnight. It fails only when the text does not match or a field is out of range. |
| Util.ParseDateTime | src/util.rs:1-16 | A parsed value is a valid date-time with a year in `0..10000`. On failure every format failed, and the error is the date-only parser's. |
| Util.ParsesWithSeconds | src/util.rs:2-5 | A `YYYY-MM-DD HH:MM:SS` string parses to exactly the date-time it spells. |
| Util.ParsesWithMinutes | src/util.rs:7-10 | A `YYYY-MM-DD HH:MM` string parses to that date-time with seconds 0. |
| Util.ParsesDateOnly | src/util.rs:12-13 | A `YYYY-MM-DD` string parses to that date at 00:00:00. |
| Util.SecondsFormatted | src/util.rs:2-5 | The seconds format accepts only `YYYY-MM-DD HH:MM:SS` spellings of valid date-times. |
| Util.MinutesFormatted | src/util.rs:7-10 | The minutes format accepts only `YYYY-MM-DD HH:MM` spellings, and yields second 0. |
| Util.DateFormatted | src/util.rs:12-13 | The date format accepts only `YYYY-MM-DD` spellings, and yields midnight. |
| Util.ParsedIsFormatted | src/util.rs:1-16 | Every string the parser accepts is the spelling of its result in one of the three formats. |
| Util.EpochSeconds | src/util.rs:25-30 | The timestamp of a valid date-time lies in the 86400-second window of its day, counted from 1970-01-01. |
| Util.EpochSecondsOrder | src/util.rs:25-30 | The timestamp orders date-times exactly as the date-time order does. |
| Util.EpochSecondsExamples | src/util.rs:25-30 | 1970-01-01T00:00:00 is 0, and 2023-05-01T00:00:00 is 1682899200. |
| Util.DropTrailingSlash | src/util.rs:32-36 | A string ending in '/' loses exactly that one character; any other string is unchanged. |
| Util.DropTrailingSlashTwice | src/util.rs:33-34 | The operation is not idempotent: `a//` becomes `a/`, and then `a`. |
| Syntect.LinesWithEndings | src/markdown.rs:55 | Splitting gives no lines exactly for empty code, never more lines than characters, and no empty line. |
| Syntect.LinesConcat | src/markdown.rs:55 | The lines with their endings concatenate back to the code. |
| Syntect.LinesShape | src/markdown.rs:55 | Every line is non-empty, has no '\n' before its end, and every line but the last ends in '\n'. |
| Syntect.FirstErrorIsFirstFailingLine | src/markdown.rs:55-57 | Highlighting reports no error exactly when no line fails. Otherwise the error reported is that of the first failing line. |
| Syntect.Highlight | src/markdown.rs:50-65 | Highlighting succeeds exactly when the generator accepts every line. It then gives the generator's HTML for all the lines. |
| Syntect.HighlightLines | src/markdown.rs:55-65 | The loop feeding lines to the generator computes the specified highlight: the generator's HTML, or the first line's error. |
| CodeBlocks.Rewrite | src/markdown.rs:69-107 | A successful rewrite has no code-block events left. It is the input with each code block (start tag, text, end tag) turned into one raw-HTML event in its place, and every other event passed through in order: other tags, raw HTML, text outside blocks and all remaining events. A stray end tag vanishes. |
| CodeBlocks.HighlightCodeblocks | src/markdown.rs:69-107 | The imperative event loop, with its in-block flag and buffer, computes the specified rewrite of the event stream. |
| CodeBlocks.FoldAppend | src/markdown.rs:77-104 | Rewriting a concatenation is rewriting the first part, then the second from the state the first left. |
| CodeBlocks.PassThrough | src/markdown.rs:95-102 | Outside a code block, events that are not code-block events pass through unchanged, in order. |
| CodeBlocks.StaleBuffer | src/markdown.rs:79-82 | Outside a block the buffer's contents never matter, because a block start clears it. |
| CodeBlocks.GatherTexts | src/markdown.rs:95-98 | Text inside a block emits nothing and is appended to the buffer. |
| CodeBlocks.BlockOutput | src/markdown.rs:79-94 | A whole block emits exactly one HTML event, built from the concatenated text and the end tag's language. The highlighter's error is the result when it fails. Afterwards the pass is out of block mode. |
| CodeBlocks.RewriteBlock | src/markdown.rs:83-94 | In a stream with a code block, the block becomes one HTML event between the untouched events before it and the rewrite of the rest. A highlighting error aborts the whole rewrite. |
| CodeBlocks.StrayEnd | src/markdown.rs:84 | A code-block end outside a block emits nothing. |
| CodeBlocks.EmitKeepsStructure | src/markdown.rs:78-103 | One event's output contains no code-block events. It keeps the event when that event is a tag other than a code-block tag or an event other than text and raw HTML; RewriteLayout covers text and raw HTML. |
| CodeBlocks.RewriteKeepsStructure | src/markdown.rs:102-106 | A successful rewrite leaves no code-block events. It keeps every tag other than a code-block tag, and every event other than text and raw HTML, in input order; RewriteLayout covers text and raw HTML. |
| CodeBlocks.RewriteLayout | src/markdown.rs:77-104 | From any state, a successful rewrite fills the input's layout one event per slot. Each code block closed in the stream becomes one raw-HTML event. Every other event is passed through unchanged and in order, except code-block starts, text inside a block and stray code-block ends, which emit nothing. |
| Markdown.NewRenderer | src/markdown.rs:27-41 | Without a syntaxes folder the defaults are used. With one, construction fails exactly when loading the folder fails, and otherwise uses the loaded syntaxes. |
| Markdown.HighlightCode | src/markdown.rs:43-67 | Fails exactly when syntect's highlighting fails, with that error. Otherwise it gives the highlighted HTML in the `sh-code` container marked with the language; see BlockClasses for the spelled-out forms. |
| Markdown.BlockClasses | src/markdown.rs:62-89 | A fenced block is wrapped as `<pre class="sh-code"><code class="syntax-LANG">…</code></pre>`. An indented block has language "", which gives an empty class value. |
| Markdown.HighlightFailsOnLine | src/markdown.rs:55-57 | Highlighting fails exactly when some line fails, and the error is the first failing line's. |
| Markdown.RenderToHtml | src/markdown.rs:109-115 | Fails exactly when the code-block rewrite fails, with its error. Otherwise it gives the writer's HTML of the rewritten events: the parsed events with each code block collapsed into one raw-HTML event and every other event, raw HTML included, kept in order. |
| Markdown.PlainDocument | src/markdown.rs:109-115 | A document without code blocks renders to the writer's HTML of its parsed events. |
| Markdown.RenderBlock | src/markdown.rs:83-115 | In a document with a code block, a highlighting error is the rendering's error. Otherwise the block becomes one wrapped HTML event in the written output. |
| CommonMark.UnwrapWrap | src/commonmark.rs:41 | The `<pre><code>…</code></pre>` wrapper adds no attributes and can be removed to recover the highlighted body. |
| CommonMark.HighlightCode | src/commonmark.rs:26-42 | Fails exactly when syntect's highlighting fails, with that error. Otherwise it gives a `<pre><code>` container from which the highlighted HTML reads back unchanged. |
| CommonMark.RenderToHtml | src/commonmark.rs:84-90 | Fails exactly when the code-block rewrite fails, with its error. Otherwise it gives the writer's HTML of the rewritten events: the parsed events with each code block collapsed into one raw-HTML event and every other event, raw HTML included, kept in order. |
| CommonMark.PlainDocument | src/commonmark.rs:84-90 | A document without code blocks renders to the writer's HTML of its parsed events. |
| CommonMark.RenderBlock | src/commonmark.rs:38-68 | In a document with a code block, a highlighting error is the rendering's error. Otherwise the block becomes one `<pre><code>` event in the written output. |

## Left out

- Tera template loading in `SiteContent::new` is not modelled. It is a foreign templating engine, so the model's build cannot fail for template reasons and `SiteError` has only the content case. Template rendering and the HTTP responses of the `serve_*` handlers are left out for the same reason.
- The `RwLock` and `RefreshWrapper` around the content and lock poisoning are concurrency. `RefreshContent` is a single-threaded field assignment.
- Reading content files is I/O and is the `readFile` parameter. Its I/O error value is not modelled beyond the path it names.
- pulldown-cmark's parser and HTML writer, the syntect generator and syntax-set loading are foreign libraries and are parameters of the model.
  - The generator is determined by the language and the lines fed so far.
  - The syntax chosen by `find_syntax_by_extension` is folded into the generator's language argument.
- chrono's leniency is not modelled: it also accepts other field widths, signed years, some whitespace and leap second 60. The grammar here is the fixed-width one, with four-digit years.
- `FileName` and `Extension` do not model `Path`'s normalisation of repeated or trailing separators, or of `.` and `..` components. They take the part after the last '/'.
- `PostUrlInjective` and `PostUrlLayout` hold for years 0 to 9999. Wider years print with more digits or a sign, as `PadSigned` spells them.
- Integer widths are unbounded: `usize` indices and counts, and `i64` timestamps.
- The RSS channel, the `url` join of post links and the conversion to the local time zone are left out; only the `take(count)` selection is modelled.
- The file watcher, the program entry point, the routes, configuration loading and the `syntax_to_css` tool are outside the modelled core.
- `CommonMarkRenderer::new` just loads the default syntaxes; that is the `Generator` parameter.
