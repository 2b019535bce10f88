/**
 * The content index of src/site.rs: rendering page and post files, the records built from the
 * configuration, the two in-place lookup structures, the index itself with its queries, and the
 * service that swaps in a rebuilt index.
 */
module Site {
  import opened Wrappers
  import opened Decimal
  import opened Calendar
  import Config
  import Markdown
  import CodeBlocks
  import PostOrder

  // ---------------------------------------------------------------------------
  // ContentRenderer

  datatype ContentError =
    | IOError(path: string)
    | MarkdownError(cause: Markdown.MarkdownError)
    | MarkdownRenderingError(path: string, cause: Markdown.MarkdownError)

  /** The error of a build. Template loading, the other way a build fails, is not part of this model. */
  datatype SiteError = ContentError(cause: ContentError)

  /**
   * The renderer for content files. `readFile` is the file system as the build sees it: the
   * contents of a path, or `None` when reading it fails.
   */
  datatype ContentRenderer = ContentRenderer(
    markdownRenderer: Markdown.MarkdownRenderer,
    cmark: CodeBlocks.Pulldown,
    readFile: string -> Option<string>)

  /** `ContentRenderer::new`: fails only when the Markdown renderer could not be built. */
  function NewContentRenderer(markdownRenderer: Result<Markdown.MarkdownRenderer, Markdown.MarkdownError>,
                              cmark: CodeBlocks.Pulldown, readFile: string -> Option<string>): (r: Result<ContentRenderer, ContentError>)
    ensures r.Err? <==> markdownRenderer.Err?
    ensures r.Err? ==> r.error == MarkdownError(markdownRenderer.error)
    ensures r.Ok? ==> r.value.markdownRenderer == markdownRenderer.value
  {
    var md :- markdownRenderer.MapError(e => MarkdownError(e));
    Ok(ContentRenderer(md, cmark, readFile))
  }

  /** The position of the last '.' in `name`, if any. */
  function LastDot(name: string): (r: Option<nat>)
    ensures r.Some? ==> r.value < |name| && name[r.value] == '.' && '.' !in name[r.value + 1..]
    ensures r.None? ==> '.' !in name
  {
    if name == [] then None
    else if name[|name| - 1] == '.' then Some(|name| - 1)
    else LastDot(name[..|name| - 1])
  }

  /** The last component of a path: everything after its last '/'. */
  function FileName(path: string): (r: string)
    ensures '/' !in r && |r| <= |path| && r == path[|path| - |r|..]
    ensures |r| == |path| || path[|path| - |r| - 1] == '/'
  {
    if path == [] || path[|path| - 1] == '/' then []
    else FileName(path[..|path| - 1]) + [path[|path| - 1]]
  }

  /**
   * `Path::extension`: what follows the last '.' of the file name; none when there is no '.',
   * when the only '.' starts the name (a hidden file) or when the name is "..".
   */
  function Extension(path: string): (r: Option<string>)
    ensures r.None? <==>
      FileName(path) == ".." || '.' !in FileName(path) ||
      (FileName(path)[0] == '.' && '.' !in FileName(path)[1..])
  {
    NameExtension(FileName(path))
  }

  /** An extension is what follows a '.' at the end of the path, and holds neither '.' nor '/'. */
  lemma ExtensionSuffix(path: string)
    ensures Extension(path).Some? ==>
      var ext := Extension(path).value;
      |ext| + 1 < |path| && path[|path| - |ext| - 1] == '.' && ext == path[|path| - |ext|..] && '.' !in ext && '/' !in ext
  {
    if Extension(path).Some? {
      SuffixOfSuffix(path, FileName(path), Extension(path).value);
    }
  }

  /** A '.'-led suffix of the file name is a '.'-led suffix of the path, and holds no '/'. */
  lemma SuffixOfSuffix(path: string, name: string, ext: string)
    requires |name| <= |path| && name == path[|path| - |name|..] && '/' !in name
    requires |ext| + 1 < |name| && name[|name| - |ext| - 1] == '.' && ext == name[|name| - |ext|..] && '.' !in ext
    ensures |ext| + 1 < |path| && path[|path| - |ext| - 1] == '.' &&
      ext == path[|path| - |ext|..] && '.' !in ext && '/' !in ext
  {
    assert path[|path| - |ext| - 1] == name[|name| - |ext| - 1];
    assert forall i :: 0 <= i < |ext| ==> ext[i] == name[|name| - |ext| + i];
  }

  /** The extension of a file name: the part after its last '.', unless that '.' starts the name. */
  function NameExtension(name: string): (r: Option<string>)
    ensures r.Some? ==>
      |r.value| + 1 < |name| && name[|name| - |r.value| - 1] == '.' &&
      r.value == name[|name| - |r.value|..] && '.' !in r.value
    ensures r.None? <==> name == ".." || '.' !in name || (name[0] == '.' && '.' !in name[1..])
  {
    if name == ".." then None
    else match LastDot(name)
      case None => None
      case Some(i) =>
        if i == 0 then None
        else
          assert name[1..][i - 1] == '.';
          Some(name[i + 1..])
  }

  /** Letters without a '.' appended after the last '.' do not move it. */
  lemma {:induction false} LastDotSkips(pre: string, post: string)
    requires '.' !in post
    ensures LastDot(pre + post) == LastDot(pre)
    decreases |post|
  {
    if post == [] {
      assert pre + post == pre;
    } else {
      var s := pre + post;
      assert s[|s| - 1] == post[|post| - 1];
      assert s[..|s| - 1] == pre + post[..|post| - 1];
      LastDotSkips(pre, post[..|post| - 1]);
    }
  }

  /** A Markdown file's extension is "md", whatever directory it is in. */
  lemma MarkdownExtension(dir: string, stem: string)
    requires '/' !in stem && '.' !in stem && stem != []
    ensures Extension(dir + "/" + stem + ".md") == Some("md")
  {
    var name := stem + ".md";
    assert dir + "/" + stem + ".md" == dir + "/" + name;
    FileNameAfterSlash(dir, name);
    assert |name| != 2;
    assert name == (stem + ".") + "md";
    LastDotSkips(stem + ".", "md");
    assert LastDot(stem + ".") == Some(|stem|);
    assert name[|stem| + 1..] == "md";
  }

  lemma {:induction false} FileNameAfterSlash(dir: string, name: string)
    requires '/' !in name
    ensures FileName(dir + "/" + name) == name
    decreases |name|
  {
    var path := dir + "/" + name;
    if name == [] {
      assert path[|path| - 1] == '/';
    } else {
      FileNameAfterSlash(dir, name[..|name| - 1]);
      assert path[..|path| - 1] == dir + "/" + name[..|name| - 1];
      assert path[|path| - 1] == name[|name| - 1];
      assert name == name[..|name| - 1] + [name[|name| - 1]];
    }
  }

  /** A hidden file whose name has no other '.' has no extension: ".md" is not a Markdown file. */
  lemma HiddenFileNoExtension(dir: string, stem: string)
    requires '/' !in stem && '.' !in stem
    ensures Extension(dir + "/." + stem) == None
  {
    var name := "." + stem;
    assert dir + "/." + stem == dir + "/" + name;
    FileNameAfterSlash(dir, name);
    LastDotSkips(".", stem);
    assert LastDot(".") == Some(0);
  }

  /** A file name without a '.' has no extension, whatever dots its directory has. */
  lemma DotlessNameNoExtension(dir: string, name: string)
    requires '/' !in name && '.' !in name
    ensures Extension(dir + "/" + name) == None
  {
    FileNameAfterSlash(dir, name);
  }

  /**
   * `ContentRenderer::render`: read the file; Markdown (extension "md") goes through the Markdown
   * renderer, anything else is served as read.
   */
  function Render(renderer: ContentRenderer, path: string): (r: Result<string, ContentError>)
    ensures renderer.readFile(path).None? ==> r == Err(IOError(path))
    ensures renderer.readFile(path).Some? && Extension(path) != Some("md") ==> r == Ok(renderer.readFile(path).value)
    ensures renderer.readFile(path).Some? && Extension(path) == Some("md") ==>
      r == (match Markdown.RenderToHtml(renderer.markdownRenderer, renderer.cmark, renderer.readFile(path).value)
            case Ok(html) => Ok(html)
            case Err(e) => Err(MarkdownRenderingError(path, e)))
    ensures r.Err? ==> !r.error.MarkdownError? && r.error.path == path
  {
    match renderer.readFile(path)
    case None => Err(IOError(path))
    case Some(raw) =>
      if Extension(path) == Some("md") then
        match Markdown.RenderToHtml(renderer.markdownRenderer, renderer.cmark, raw)
        case Err(e) => Err(MarkdownRenderingError(path, e))
        case Ok(output) => Ok(output)
      else Ok(raw)
  }

  // ---------------------------------------------------------------------------
  // Records

  datatype Page = Page(url: string, title: string, contentHtml: string)

  datatype Post = Post(url: string, title: string, contentHtml: string, date: DateTime, tags: seq<string>)

  datatype RssMetadata = RssMetadata(title: string, description: string, url: string, count: nat)

  /** What a URL leads to. */
  datatype Content = PageContent(page: Page) | PostContent(post: Post) | Redirect(url: string)

  /** A post's URL: `/{year:04}/{month:02}/{day:02}/{slug}`, its pieces joined from the right. */
  function PostUrl(date: DateTime, slug: string): (r: string)
    ensures |r| > |slug| + 1 && r[0] == '/' && r[|r| - |slug| - 1..] == "/" + slug
  {
    "/" + (PadSigned(date.year, 4) + ("/" + (Pad(date.month, 2) + ("/" + (Pad(date.day, 2) + ("/" + slug))))))
  }

  /** For a four-digit year, the URL is slash, 4 digits, slash, 2 digits, slash, 2 digits, slash, slug. */
  lemma PostUrlLayout(date: DateTime, slug: string)
    requires date.Valid() && 0 <= date.year < 10000
    ensures PostUrl(date, slug) ==
      "/" + (FixedDigits(date.year, 4) + ("/" + (FixedDigits(date.month, 2) + ("/" + (FixedDigits(date.day, 2) + ("/" + slug))))))
  {
    assert Pow10(4) == 10000 && Pow10(2) == 100;
    PadFits(date.year, 4);
    PadFits(date.month, 2);
    PadFits(date.day, 2);
  }

  /** Equal strings made of equally long heads are equal head for head and tail for tail. */
  lemma SplitAt(a: string, x: string, b: string, y: string)
    requires |a| == |b| && a + x == b + y
    ensures a == b && x == y
  {
    assert a == (a + x)[..|a|] && b == (b + y)[..|b|];
    assert x == (a + x)[|a|..] && y == (b + y)[|b|..];
  }

  /** Two posts of four-digit years share a URL only when they share the calendar day and the slug. */
  lemma PostUrlInjective(d1: DateTime, s1: string, d2: DateTime, s2: string)
    requires d1.Valid() && 0 <= d1.year < 10000 && d2.Valid() && 0 <= d2.year < 10000
    requires PostUrl(d1, s1) == PostUrl(d2, s2)
    ensures d1.year == d2.year && d1.month == d2.month && d1.day == d2.day && s1 == s2
  {
    PostUrlLayout(d1, s1);
    PostUrlLayout(d2, s2);
    var y1, m1, e1 := FixedDigits(d1.year, 4), FixedDigits(d1.month, 2), FixedDigits(d1.day, 2);
    var y2, m2, e2 := FixedDigits(d2.year, 4), FixedDigits(d2.month, 2), FixedDigits(d2.day, 2);
    var t1, t2 := "/" + s1, "/" + s2;
    SplitAt("/", y1 + ("/" + (m1 + ("/" + (e1 + t1)))), "/", y2 + ("/" + (m2 + ("/" + (e2 + t2)))));
    SplitAt(y1, "/" + (m1 + ("/" + (e1 + t1))), y2, "/" + (m2 + ("/" + (e2 + t2))));
    SplitAt("/", m1 + ("/" + (e1 + t1)), "/", m2 + ("/" + (e2 + t2)));
    SplitAt(m1, "/" + (e1 + t1), m2, "/" + (e2 + t2));
    SplitAt("/", e1 + t1, "/", e2 + t2);
    SplitAt(e1, t1, e2, t2);
    SplitAt("/", s1, "/", s2);
    assert Pow10(4) == 10000 && Pow10(2) == 100;
    FixedDigitsInjective(d1.year, d2.year, 4);
    FixedDigitsInjective(d1.month, d2.month, 2);
    FixedDigitsInjective(d1.day, d2.day, 2);
  }

  /** The URL spelled out from the digit strings of its date. */
  lemma PostUrlSpelled(date: DateTime, slug: string, year: string, month: string, day: string)
    requires date.Valid() && 0 <= date.year < 10000
    requires FixedDigits(date.year, 4) == year && FixedDigits(date.month, 2) == month && FixedDigits(date.day, 2) == day
    ensures PostUrl(date, slug) == "/" + year + "/" + month + "/" + day + "/" + slug
  {
    PostUrlLayout(date, slug);
  }

  lemma PostUrlExample()
    ensures PostUrl(DateTime(2023, 5, 1, 9, 30, 0), "hello") == "/2023/05/01/hello"
  {
    Digits2023();
    TwoDigits(0, 5);
    TwoDigits(0, 1);
    PostUrlSpelled(DateTime(2023, 5, 1, 9, 30, 0), "hello", "2023", "05", "01");
    Spelled2023();
  }

  lemma Spelled2023()
    ensures "/" + "2023" + "/" + "05" + "/" + "01" + "/" + "hello" == "/2023/05/01/hello"
  {
  }

  /** Years below 1000 are zero-padded to four digits. */
  lemma PostUrlPaddedYearExample()
    ensures PostUrl(DateTime(987, 12, 24, 0, 0, 0), "x") == "/0987/12/24/x"
  {
    Digits0987();
    TwoDigits(1, 2);
    TwoDigits(2, 4);
    PostUrlSpelled(DateTime(987, 12, 24, 0, 0, 0), "x", "0987", "12", "24");
    Spelled0987();
  }

  lemma Spelled0987()
    ensures "/" + "0987" + "/" + "12" + "/" + "24" + "/" + "x" == "/0987/12/24/x"
  {
  }

  lemma TwoDigits(tens: nat, ones: nat)
    requires tens < 10 && ones < 10
    ensures FixedDigits(10 * tens + ones, 2) == [DigitChar(tens), DigitChar(ones)]
  {
    var n := 10 * tens + ones;
    assert n / 10 == tens && n % 10 == ones;
    assert tens / 10 == 0 && tens % 10 == tens;
    assert FixedDigits(tens, 1) == FixedDigits(0, 0) + [DigitChar(tens)];
    assert FixedDigits(n, 2) == FixedDigits(tens, 1) + [DigitChar(ones)];
  }

  lemma Digits2023()
    ensures FixedDigits(2023, 4) == "2023"
  {
    assert FixedDigits(2, 1) == "2";
    assert FixedDigits(20, 2) == "20";
    assert FixedDigits(202, 3) == "202";
  }

  lemma Digits0987()
    ensures FixedDigits(987, 4) == "0987"
  {
    assert FixedDigits(0, 1) == "0";
    assert FixedDigits(9, 2) == "09";
    assert FixedDigits(98, 3) == "098";
  }

  /** `Post::try_from`: the post record, with its derived URL and rendered content; a post without tags has none. */
  function PostTryFrom(value: Config.Post, renderer: ContentRenderer): (r: Result<Post, SiteError>)
    ensures r.Err? <==> Render(renderer, value.filePath).Err?
    ensures r.Err? ==> r.error == ContentError(Render(renderer, value.filePath).error)
    ensures r.Ok? ==>
      r.value.url == PostUrl(value.date, value.slug) && r.value.title == value.title &&
      r.value.contentHtml == Render(renderer, value.filePath).value && r.value.date == value.date
    ensures r.Ok? ==> (value.tags.None? ==> r.value.tags == []) && (value.tags.Some? ==> r.value.tags == value.tags.value)
  {
    var url := PostUrl(value.date, value.slug);
    var contentHtml :- Render(renderer, value.filePath).MapError(e => ContentError(e));
    var tags := value.tags.GetOr([]);
    Ok(Post(url, value.title, contentHtml, value.date, tags))
  }

  /** `Page::try_from`: the page record, its URL taken as configured. */
  function PageTryFrom(value: Config.Page, renderer: ContentRenderer): (r: Result<Page, SiteError>)
    ensures r.Err? <==> Render(renderer, value.filePath).Err?
    ensures r.Err? ==> r.error == ContentError(Render(renderer, value.filePath).error)
    ensures r.Ok? ==> r.value == Page(value.url, value.title, Render(renderer, value.filePath).value)
  {
    var contentHtml :- Render(renderer, value.filePath).MapError(e => ContentError(e));
    Ok(Page(value.url, value.title, contentHtml))
  }

  /** `RssMetadata::from`: the feed settings, field for field. */
  function RssMetadataFrom(value: Config.Rss): (r: RssMetadata)
    ensures r.title == value.title && r.description == value.description && r.url == value.url && r.count == value.count
  {
    RssMetadata(value.title, value.description, value.url, value.count)
  }

  // ---------------------------------------------------------------------------
  // Lookup tables, as functions of the lists they index

  function PageUrls(pages: seq<Page>): (r: seq<string>)
    ensures |r| == |pages| && forall i :: 0 <= i < |pages| ==> r[i] == pages[i].url
  {
    seq(|pages|, i requires 0 <= i < |pages| => pages[i].url)
  }

  function PostUrls(posts: seq<Post>): (r: seq<string>)
    ensures |r| == |posts| && forall i :: 0 <= i < |posts| ==> r[i] == posts[i].url
  {
    seq(|posts|, i requires 0 <= i < |posts| => posts[i].url)
  }

  /** A URL-to-position table filled in list order, each insert overwriting an earlier one for the same URL. */
  function UrlIndex(urls: seq<string>): map<string, nat> {
    if urls == [] then map[]
    else UrlIndex(urls[..|urls| - 1])[urls[|urls| - 1] := |urls| - 1]
  }

  /**
   * The table holds exactly the listed URLs, and maps each to a valid position holding that URL:
   * the last one, since a later duplicate overwrites an earlier one.
   */
  lemma {:induction false} UrlIndexLast(urls: seq<string>)
    ensures forall u :: u in UrlIndex(urls) <==> u in urls
    ensures forall u :: u in UrlIndex(urls) ==>
      UrlIndex(urls)[u] < |urls| && urls[UrlIndex(urls)[u]] == u &&
      forall j :: UrlIndex(urls)[u] < j < |urls| ==> urls[j] != u
  {
    if urls != [] {
      var n := |urls| - 1;
      UrlIndexLast(urls[..n]);
      assert urls == urls[..n] + [urls[n]];
    }
  }

  /** Every alternate URL redirects to `target`; other entries stay. */
  function WithAlternates(m: map<string, string>, urls: seq<string>, target: string): map<string, string> {
    m + map u | u in urls :: target
  }

  /** Registering one more alternate URL is one overwriting insert. */
  lemma WithAlternatesSnoc(m: map<string, string>, urls: seq<string>, i: nat, target: string)
    requires i < |urls|
    ensures WithAlternates(m, urls[..i + 1], target) == WithAlternates(m, urls[..i], target)[urls[i] := target]
  {
    assert urls[..i + 1] == urls[..i] + [urls[i]];
  }

  /** Every listed URL redirects to `target`; every other key keeps its entry, or its absence. */
  lemma WithAlternatesGet(m: map<string, string>, urls: seq<string>, target: string)
    ensures forall u :: u in urls ==> u in WithAlternates(m, urls, target) && WithAlternates(m, urls, target)[u] == target
    ensures forall u :: u !in urls ==> (u in WithAlternates(m, urls, target) <==> u in m)
    ensures forall u :: u !in urls && u in m ==> WithAlternates(m, urls, target)[u] == m[u]
  {
  }

  /** The redirect table after registering, item by item, each item's alternate URLs for its URL. */
  function Redirects(m: map<string, string>, alternates: seq<Option<seq<string>>>, targets: seq<string>): map<string, string>
    requires |alternates| == |targets|
  {
    if alternates == [] then m
    else
      var n := |alternates| - 1;
      var prior := Redirects(m, alternates[..n], targets[..n]);
      match alternates[n]
      case None => prior
      case Some(urls) => WithAlternates(prior, urls, targets[n])
  }

  predicate Lists(alternates: seq<Option<seq<string>>>, i: nat, u: string)
    requires i < |alternates|
  {
    alternates[i].Some? && u in alternates[i].value
  }

  /**
   * A URL redirects exactly when some item lists it as an alternate, and then to the URL of the
   * last item that does.
   */
  lemma {:induction false} RedirectsLast(alternates: seq<Option<seq<string>>>, targets: seq<string>, u: string)
    requires |alternates| == |targets|
    ensures u in Redirects(map[], alternates, targets) <==> exists i :: 0 <= i < |alternates| && Lists(alternates, i, u)
    ensures u in Redirects(map[], alternates, targets) ==>
      exists i :: 0 <= i < |alternates| && Lists(alternates, i, u) &&
        Redirects(map[], alternates, targets)[u] == targets[i] &&
        forall j :: i < j < |alternates| ==> !Lists(alternates, j, u)
  {
    if alternates != [] {
      var n := |alternates| - 1;
      RedirectsLast(alternates[..n], targets[..n], u);
      assert forall i :: 0 <= i < n ==> Lists(alternates[..n], i, u) == Lists(alternates, i, u);
      if Lists(alternates, n, u) {
        assert Redirects(map[], alternates, targets)[u] == targets[n];
      }
    }
  }

  /** The list under `tag`, empty when the tag is absent. */
  function Lookup(m: map<string, seq<nat>>, tag: string): seq<nat> {
    if tag in m then m[tag] else []
  }

  /** `index` appended to the list under `tag`, which starts out as `[index]` when the tag is new. */
  function WithTag(m: map<string, seq<nat>>, index: nat, tag: string): map<string, seq<nat>> {
    m[tag := Lookup(m, tag) + [index]]
  }

  /** `index` appended under each of `tags` in turn. */
  function WithTags(m: map<string, seq<nat>>, index: nat, tags: seq<string>): map<string, seq<nat>> {
    if tags == [] then m else WithTag(WithTags(m, index, tags[..|tags| - 1]), index, tags[|tags| - 1])
  }

  /** How often `tag` occurs in `tags`. */
  function Count(tags: seq<string>, tag: string): nat {
    if tags == [] then 0 else Count(tags[..|tags| - 1], tag) + (if tags[|tags| - 1] == tag then 1 else 0)
  }

  lemma {:induction false} CountPositive(tags: seq<string>, tag: string)
    ensures Count(tags, tag) > 0 <==> tag in tags
  {
    if tags != [] {
      CountPositive(tags[..|tags| - 1], tag);
      assert tags == tags[..|tags| - 1] + [tags[|tags| - 1]];
    }
  }

  /** Adding a post under its tags appends its index once per occurrence of each tag and adds nothing else. */
  lemma {:induction false} WithTagsLookup(m: map<string, seq<nat>>, index: nat, tags: seq<string>, tag: string)
    ensures Lookup(WithTags(m, index, tags), tag) == Lookup(m, tag) + seq(Count(tags, tag), _ => index)
    ensures tag in WithTags(m, index, tags) <==> tag in m || tag in tags
  {
    if tags == [] {
      assert Lookup(m, tag) + [] == Lookup(m, tag);
    } else {
      var init := tags[..|tags| - 1];
      WithTagsLookup(m, index, init, tag);
      WithTagLookup(WithTags(m, index, init), index, tags[|tags| - 1], tag);
      RepeatSnoc(index, Count(init, tag));
    }
  }

  /** Adding a post under one tag appends its index to that tag's list and to no other. */
  lemma WithTagLookup(m: map<string, seq<nat>>, index: nat, t: string, tag: string)
    ensures Lookup(WithTag(m, index, t), tag) == if t == tag then Lookup(m, tag) + [index] else Lookup(m, tag)
    ensures tag in WithTag(m, index, t) <==> tag in m || tag == t
  {
  }

  lemma RepeatSnoc(index: nat, c: nat)
    ensures seq(c, _ => index) + [index] == seq(c + 1, _ => index)
  {
  }

  /** The tag table of a post list: each post's index under each of its tags, in list order. */
  function TagIndex(posts: seq<Post>): map<string, seq<nat>> {
    if posts == [] then map[]
    else WithTags(TagIndex(posts[..|posts| - 1]), |posts| - 1, posts[|posts| - 1].tags)
  }

  /** The table holds exactly the tags some post carries. */
  lemma {:induction false} TagIndexKeys(posts: seq<Post>, tag: string)
    ensures tag in TagIndex(posts) <==> exists i :: 0 <= i < |posts| && tag in posts[i].tags
  {
    if posts != [] {
      var n := |posts| - 1;
      var init := posts[..n];
      TagIndexKeys(init, tag);
      WithTagsLookup(TagIndex(init), n, posts[n].tags, tag);
      assert forall i :: 0 <= i < n ==> init[i] == posts[i];
    }
  }

  /** A tag's list holds positions of the list, in non-decreasing order. */
  lemma {:induction false} TagIndexOrdered(posts: seq<Post>, tag: string)
    ensures forall k :: 0 <= k < |Lookup(TagIndex(posts), tag)| ==> Lookup(TagIndex(posts), tag)[k] < |posts|
    ensures forall k1, k2 :: 0 <= k1 <= k2 < |Lookup(TagIndex(posts), tag)| ==>
      Lookup(TagIndex(posts), tag)[k1] <= Lookup(TagIndex(posts), tag)[k2]
  {
    if posts != [] {
      var n := |posts| - 1;
      var init := posts[..n];
      TagIndexOrdered(init, tag);
      WithTagsLookup(TagIndex(init), n, posts[n].tags, tag);
      var before := Lookup(TagIndex(init), tag);
      var after := Lookup(TagIndex(posts), tag);
      assert after == before + seq(Count(posts[n].tags, tag), _ => n);
    }
  }

  /** A tag's list holds the position of a post exactly when the post carries the tag. */
  lemma {:induction false} TagIndexPositions(posts: seq<Post>, tag: string)
    ensures forall i :: 0 <= i < |posts| ==> (i in Lookup(TagIndex(posts), tag) <==> tag in posts[i].tags)
  {
    if posts != [] {
      var n := |posts| - 1;
      var init := posts[..n];
      TagIndexPositions(init, tag);
      TagIndexOrdered(init, tag);
      WithTagsLookup(TagIndex(init), n, posts[n].tags, tag);
      CountPositive(posts[n].tags, tag);
      var before := Lookup(TagIndex(init), tag);
      var after := Lookup(TagIndex(posts), tag);
      assert after == before + seq(Count(posts[n].tags, tag), _ => n);
      forall i | 0 <= i < |posts|
        ensures i in after <==> tag in posts[i].tags
      {
        if i < n {
          assert init[i] == posts[i];
          assert i in after <==> i in before;
        } else if tag in posts[n].tags {
          assert after[|before|] == n;
        }
      }
    }
  }

  /** A tag's list holds the position of each post as often as the post lists the tag. */
  lemma {:induction false} TagIndexCount(posts: seq<Post>, tag: string, i: nat)
    requires i < |posts|
    ensures multiset(Lookup(TagIndex(posts), tag))[i] == Count(posts[i].tags, tag)
  {
    var n := |posts| - 1;
    var init := posts[..n];
    WithTagsLookup(TagIndex(init), n, posts[n].tags, tag);
    var before := Lookup(TagIndex(init), tag);
    var added := seq(Count(posts[n].tags, tag), _ => n);
    assert Lookup(TagIndex(posts), tag) == before + added;
    RepeatMultiset(n, Count(posts[n].tags, tag), i);
    if i < n {
      TagIndexCount(init, tag, i);
      assert init[i] == posts[i];
    } else {
      TagIndexOrdered(init, tag);
      assert n !in before;
    }
  }

  lemma {:induction false} RepeatMultiset(index: nat, c: nat, i: nat)
    ensures multiset(seq(c, _ => index))[i] == if i == index then c else 0
  {
    if c > 0 {
      RepeatMultiset(index, c - 1, i);
      RepeatSnoc(index, c - 1);
    }
  }

  /**
   * A tag's list holds the positions of exactly the posts carrying that tag, in range and in
   * non-decreasing order; the table holds exactly the tags some post carries.
   */
  lemma TagIndexLists(posts: seq<Post>, tag: string)
    ensures tag in TagIndex(posts) <==> exists i :: 0 <= i < |posts| && tag in posts[i].tags
    ensures forall k :: 0 <= k < |Lookup(TagIndex(posts), tag)| ==> Lookup(TagIndex(posts), tag)[k] < |posts|
    ensures forall k1, k2 :: 0 <= k1 <= k2 < |Lookup(TagIndex(posts), tag)| ==>
      Lookup(TagIndex(posts), tag)[k1] <= Lookup(TagIndex(posts), tag)[k2]
    ensures forall i :: 0 <= i < |posts| ==> (i in Lookup(TagIndex(posts), tag) <==> tag in posts[i].tags)
  {
    TagIndexKeys(posts, tag);
    TagIndexOrdered(posts, tag);
    TagIndexPositions(posts, tag);
  }

  // ---------------------------------------------------------------------------
  // AlternateUrlMappings and PostsByTag

  /** Old URLs that redirect to current ones. */
  class AlternateUrlMappings {
    var mapping: map<string, string>

    constructor ()
      ensures mapping == map[]
    {
      mapping := map[];
    }

    function Get(alternateUrl: string): (r: Option<string>)
      reads this
      ensures r.Some? <==> alternateUrl in mapping
      ensures r.Some? ==> r.value == mapping[alternateUrl]
    {
      if alternateUrl in mapping then Some(mapping[alternateUrl]) else None
    }

    method AddMapping(alternateUrl: string, currentUrl: string)
      modifies this
      ensures mapping == old(mapping)[alternateUrl := currentUrl]
    {
      mapping := mapping[alternateUrl := currentUrl];
    }

    /** Afterwards every listed URL leads to `currentUrl` and every other entry is as before. */
    method AddMappings(alternateUrls: seq<string>, currentUrl: string)
      modifies this
      ensures mapping == WithAlternates(old(mapping), alternateUrls, currentUrl)
      ensures forall u :: u in alternateUrls ==> Get(u) == Some(currentUrl)
      ensures forall u :: u !in alternateUrls ==> Get(u) == old(Get(u))
    {
      for i := 0 to |alternateUrls|
        invariant mapping == WithAlternates(old(mapping), alternateUrls[..i], currentUrl)
      {
        WithAlternatesSnoc(old(mapping), alternateUrls, i, currentUrl);
        AddMapping(alternateUrls[i], currentUrl);
      }
      assert alternateUrls[..|alternateUrls|] == alternateUrls;
      WithAlternatesGet(old(mapping), alternateUrls, currentUrl);
    }
  }

  /** For each tag, the positions of the posts carrying it. */
  class PostsByTag {
    var mapping: map<string, seq<nat>>

    constructor ()
      ensures mapping == map[]
    {
      mapping := map[];
    }

    function Get(tag: string): (r: Option<seq<nat>>)
      reads this
      ensures r.Some? <==> tag in mapping
      ensures r.Some? ==> r.value == mapping[tag]
    {
      if tag in mapping then Some(mapping[tag]) else None
    }

    /** Appends `postIndex` to the list of `tag`, starting one if there is none; other tags keep their lists. */
    method AddMapping(postIndex: nat, tag: string)
      modifies this
      ensures mapping == WithTag(old(mapping), postIndex, tag)
      ensures Get(tag) == Some(old(Lookup(mapping, tag)) + [postIndex])
      ensures forall t :: t != tag ==> Get(t) == old(Get(t))
    {
      if tag in mapping {
        mapping := mapping[tag := mapping[tag] + [postIndex]];
      } else {
        assert Lookup(mapping, tag) + [postIndex] == [postIndex];
        mapping := mapping[tag := [postIndex]];
      }
    }

    method AddMappings(postIndex: nat, tags: seq<string>)
      modifies this
      ensures mapping == WithTags(old(mapping), postIndex, tags)
    {
      for i := 0 to |tags|
        invariant mapping == WithTags(old(mapping), postIndex, tags[..i])
      {
        assert tags[..i + 1][..i] == tags[..i];
        AddMapping(postIndex, tags[i]);
      }
      assert tags[..|tags|] == tags;
    }
  }

  // ---------------------------------------------------------------------------
  // Building the index

  /** Converts every item in order; the first failure is the result. */
  function RenderAll<A, B>(xs: seq<A>, f: A -> Result<B, SiteError>): (r: Result<seq<B>, SiteError>)
    ensures r.Ok? ==> |r.value| == |xs|
  {
    if xs == [] then Ok([])
    else
      var n := |xs| - 1;
      var init :- RenderAll(xs[..n], f);
      var last :- f(xs[n]);
      Ok(init + [last])
  }

  /**
   * Converting succeeds exactly when every item converts, and then item by item; otherwise the
   * error is that of the first item that does not convert.
   */
  lemma {:induction false} RenderAllSpec<A, B>(xs: seq<A>, f: A -> Result<B, SiteError>)
    ensures RenderAll(xs, f).Ok? <==> forall i :: 0 <= i < |xs| ==> f(xs[i]).Ok?
    ensures RenderAll(xs, f).Ok? ==> forall i :: 0 <= i < |xs| ==> f(xs[i]) == Ok(RenderAll(xs, f).value[i])
    ensures RenderAll(xs, f).Err? ==>
      exists i :: 0 <= i < |xs| && f(xs[i]) == Err(RenderAll(xs, f).error) && forall j :: 0 <= j < i ==> f(xs[j]).Ok?
  {
    if xs != [] {
      var n := |xs| - 1;
      RenderAllSpec(xs[..n], f);
      assert forall i :: 0 <= i < n ==> xs[..n][i] == xs[i];
    }
  }

  /** One more item converted. */
  lemma RenderAllStep<A, B>(xs: seq<A>, f: A -> Result<B, SiteError>, i: nat, done: seq<B>)
    requires i < |xs| && RenderAll(xs[..i], f) == Ok(done) && f(xs[i]).Ok?
    ensures RenderAll(xs[..i + 1], f) == Ok(done + [f(xs[i]).value])
  {
    assert xs[..i + 1][..i] == xs[..i];
  }

  /** When every item before position `i` converts and item `i` does not, the result is item `i`'s error. */
  lemma FirstFailure<A, B>(xs: seq<A>, f: A -> Result<B, SiteError>, i: nat)
    requires i < |xs| && RenderAll(xs[..i], f).Ok? && f(xs[i]).Err?
    ensures RenderAll(xs, f) == Err(f(xs[i]).error)
  {
    RenderAllSpec(xs[..i], f);
    RenderAllSpec(xs, f);
    assert forall j :: 0 <= j < i ==> xs[..i][j] == xs[j];
    var r := RenderAll(xs, f);
    var k :| 0 <= k < |xs| && f(xs[k]) == Err(r.error) && forall j :: 0 <= j < k ==> f(xs[j]).Ok?;
    assert k == i;
  }

  function PageRenderer(renderer: ContentRenderer): Config.Page -> Result<Page, SiteError> {
    value => PageTryFrom(value, renderer)
  }

  function PostRenderer(renderer: ContentRenderer): Config.Post -> Result<Post, SiteError> {
    value => PostTryFrom(value, renderer)
  }

  function Dates(configs: seq<Config.Post>): (r: seq<DateTime>)
    ensures |r| == |configs| && forall i :: 0 <= i < |configs| ==> r[i] == configs[i].date
  {
    seq(|configs|, i requires 0 <= i < |configs| => configs[i].date)
  }

  /** The configured posts, newest first, posts of equal date in configured order. */
  function SortedPosts(configs: seq<Config.Post>): (r: seq<Config.Post>)
    ensures |r| == |PostOrder.Order(Dates(configs))|
  {
    PostOrder.Select(configs, PostOrder.Order(Dates(configs)))
  }

  function PageAlternates(configs: seq<Config.Page>): (r: seq<Option<seq<string>>>)
    ensures |r| == |configs| && forall i :: 0 <= i < |configs| ==> r[i] == configs[i].alternateUrls
  {
    seq(|configs|, i requires 0 <= i < |configs| => configs[i].alternateUrls)
  }

  function PostAlternates(configs: seq<Config.Post>): (r: seq<Option<seq<string>>>)
    ensures |r| == |configs| && forall i :: 0 <= i < |configs| ==> r[i] == configs[i].alternateUrls
  {
    seq(|configs|, i requires 0 <= i < |configs| => configs[i].alternateUrls)
  }

  /** The rendered pages, in configured order. */
  function RenderedPages(renderer: ContentRenderer, configs: seq<Config.Page>): Result<seq<Page>, SiteError> {
    RenderAll(configs, PageRenderer(renderer))
  }

  /** The rendered posts, newest first. */
  function RenderedPosts(renderer: ContentRenderer, configs: seq<Config.Post>): Result<seq<Post>, SiteError> {
    RenderAll(SortedPosts(configs), PostRenderer(renderer))
  }

  /** The outcome of a build: all pages, then all posts, rendered; or the first rendering error. */
  function Build(renderer: ContentRenderer, pagesConfig: Config.Pages, postsConfig: Config.Posts): (r: Result<(seq<Page>, seq<Post>), SiteError>)
    ensures r.Ok? <==> RenderedPages(renderer, pagesConfig.pages).Ok? && RenderedPosts(renderer, postsConfig.posts).Ok?
    ensures r.Err? ==>
      r.error == (if RenderedPages(renderer, pagesConfig.pages).Err? then RenderedPages(renderer, pagesConfig.pages).error
                  else RenderedPosts(renderer, postsConfig.posts).error)
    ensures r.Ok? ==> |r.value.0| == |pagesConfig.pages| && |r.value.1| == |postsConfig.posts|
  {
    SortedPostsSpec(postsConfig.posts);
    var pages :- RenderedPages(renderer, pagesConfig.pages);
    var posts :- RenderedPosts(renderer, postsConfig.posts);
    Ok((pages, posts))
  }

  /** Posts run newest first. */
  predicate DateDescending(posts: seq<Post>) {
    forall i, j :: 0 <= i < j < |posts| ==> !Earlier(posts[i].date, posts[j].date)
  }

  /** The listing is a rearrangement of the configured posts: position `i` holds configured post `order[i]`. */
  lemma SortedPostsSpec(configs: seq<Config.Post>)
    ensures |SortedPosts(configs)| == |configs|
    ensures multiset(SortedPosts(configs)) == multiset(configs)
    ensures forall i :: 0 <= i < |configs| ==>
      SortedPosts(configs)[i] == configs[PostOrder.Order(Dates(configs))[i]]
  {
    var dates := Dates(configs);
    PostOrder.OrderIsStableDescending(dates);
    PostOrder.SelectOrderIsPermutation(configs, dates, |configs|);
    PostOrder.SelectAt(configs, PostOrder.Order(dates));
    assert configs[..|configs|] == configs;
  }

  /** Rendered post `i` is configured post `order[i]`, converted. */
  lemma RenderedPostsAt(renderer: ContentRenderer, configs: seq<Config.Post>)
    requires RenderedPosts(renderer, configs).Ok?
    ensures var posts := RenderedPosts(renderer, configs).value;
      var order := PostOrder.Order(Dates(configs));
      |posts| == |configs| &&
      forall i :: 0 <= i < |posts| ==>
        PostTryFrom(configs[order[i]], renderer) == Ok(posts[i]) && posts[i].date == configs[order[i]].date
  {
    SortedPostsSpec(configs);
    RenderAllSpec(SortedPosts(configs), PostRenderer(renderer));
  }

  /**
   * The rendered posts are the configured ones, each exactly once, newest first, and posts of
   * equal date in the order they were configured.
   */
  lemma RenderedPostsOrdered(renderer: ContentRenderer, configs: seq<Config.Post>)
    requires RenderedPosts(renderer, configs).Ok?
    ensures var posts := RenderedPosts(renderer, configs).value;
      var order := PostOrder.Order(Dates(configs));
      |posts| == |configs| && |order| == |configs| &&
      multiset(SortedPosts(configs)) == multiset(configs) &&
      (forall k :: 0 <= k < |configs| <==> k in order) &&
      (forall i :: 0 <= i < |posts| ==> PostTryFrom(configs[order[i]], renderer) == Ok(posts[i])) &&
      (forall i, j :: 0 <= i < j < |posts| && posts[i].date == posts[j].date ==> order[i] < order[j]) &&
      DateDescending(posts)
  {
    PostOrder.OrderIsStableDescending(Dates(configs));
    SortedPostsSpec(configs);
    RenderedPostsAt(renderer, configs);
    RenderedPostsDescending(renderer, configs);
  }

  /** Rendered posts run newest first, posts of equal date in configured order. */
  lemma RenderedPostsDescending(renderer: ContentRenderer, configs: seq<Config.Post>)
    requires RenderedPosts(renderer, configs).Ok?
    ensures var posts := RenderedPosts(renderer, configs).value;
      var order := PostOrder.Order(Dates(configs));
      |order| == |posts| &&
      (forall i, j :: 0 <= i < j < |posts| && posts[i].date == posts[j].date ==> order[i] < order[j]) &&
      DateDescending(posts)
  {
    var dates := Dates(configs);
    PostOrder.OrderIsStableDescending(dates);
    RenderedPostsAt(renderer, configs);
    var posts := RenderedPosts(renderer, configs).value;
    var order := PostOrder.Order(dates);
    assert forall i :: 0 <= i < |posts| ==> posts[i].date == dates[order[i]];
  }

  // ---------------------------------------------------------------------------
  // SiteContent

  /** The content index: immutable once built, and replaced as a whole on refresh. */
  class SiteContent {
    const pages: seq<Page>
    const posts: seq<Post>
    const pagesByUrl: map<string, nat>
    const postsByUrl: map<string, nat>
    const alternateUrlMappings: AlternateUrlMappings
    const postTagMappings: PostsByTag
    const rss: RssMetadata

    constructor (pages: seq<Page>, posts: seq<Post>, pagesByUrl: map<string, nat>, postsByUrl: map<string, nat>,
                 alternateUrlMappings: AlternateUrlMappings, postTagMappings: PostsByTag, rss: RssMetadata)
      ensures this.pages == pages && this.posts == posts
      ensures this.pagesByUrl == pagesByUrl && this.postsByUrl == postsByUrl
      ensures this.alternateUrlMappings == alternateUrlMappings && this.postTagMappings == postTagMappings
      ensures this.rss == rss
    {
      this.pages := pages;
      this.posts := posts;
      this.pagesByUrl := pagesByUrl;
      this.postsByUrl := postsByUrl;
      this.alternateUrlMappings := alternateUrlMappings;
      this.postTagMappings := postTagMappings;
      this.rss := rss;
    }

    /** The URL tables index the page and post lists. */
    predicate UrlsIndexed() {
      pagesByUrl == UrlIndex(PageUrls(pages)) && postsByUrl == UrlIndex(PostUrls(posts))
    }

    /** What every built index satisfies: URL tables and tag table index the lists, posts run newest first. */
    predicate Valid()
      reads postTagMappings
    {
      UrlsIndexed() && postTagMappings.mapping == TagIndex(posts) && DateDescending(posts)
    }

    /** This index is the one a build from these records produces. */
    predicate BuiltFrom(renderer: ContentRenderer, pagesConfig: Config.Pages, postsConfig: Config.Posts)
      reads alternateUrlMappings, postTagMappings
    {
      Build(renderer, pagesConfig, postsConfig) == Ok((pages, posts)) &&
      UrlsIndexed() &&
      alternateUrlMappings.mapping == Redirects(map[],
        PageAlternates(pagesConfig.pages) + PostAlternates(SortedPosts(postsConfig.posts)),
        PageUrls(pages) + PostUrls(posts)) &&
      postTagMappings.mapping == TagIndex(posts) &&
      rss == RssMetadataFrom(postsConfig.rss)
    }

    /** A built index is valid, and has one page per page record, with that record's URL, and one post per post record. */
    lemma BuiltIsValid(renderer: ContentRenderer, pagesConfig: Config.Pages, postsConfig: Config.Posts)
      requires BuiltFrom(renderer, pagesConfig, postsConfig)
      ensures Valid()
      ensures |pages| == |pagesConfig.pages| && |posts| == |postsConfig.posts|
      ensures forall i :: 0 <= i < |pages| ==> pages[i].url == pagesConfig.pages[i].url
    {
      RenderedPostsOrdered(renderer, postsConfig.posts);
      assert RenderedPages(renderer, pagesConfig.pages) == Ok(pages);
      RenderAllSpec(pagesConfig.pages, PageRenderer(renderer));
      assert forall i :: 0 <= i < |pages| ==> PageTryFrom(pagesConfig.pages[i], renderer) == Ok(pages[i]);
    }

    /** `get_page_by_url`: the page with this URL, the last configured one if several share it. */
    function GetPageByUrl(url: string): (r: Option<Page>)
      requires UrlsIndexed()
      ensures r.Some? <==> exists i :: 0 <= i < |pages| && pages[i].url == url
      ensures r.Some? ==>
        exists i :: 0 <= i < |pages| && pages[i] == r.value && r.value.url == url &&
          (forall j :: i < j < |pages| ==> pages[j].url != url)
    {
      UrlIndexLast(PageUrls(pages));
      if url in pagesByUrl then Some(pages[pagesByUrl[url]]) else None
    }

    /** `get_post_by_url`: the post with this URL, the last in listing order if several share it. */
    function GetPostByUrl(url: string): (r: Option<Post>)
      requires UrlsIndexed()
      ensures r.Some? <==> exists i :: 0 <= i < |posts| && posts[i].url == url
      ensures r.Some? ==>
        exists i :: 0 <= i < |posts| && posts[i] == r.value && r.value.url == url &&
          (forall j :: i < j < |posts| ==> posts[j].url != url)
    {
      UrlIndexLast(PostUrls(posts));
      if url in postsByUrl then Some(posts[postsByUrl[url]]) else None
    }

    /**
     * `get_content_at`: a redirect if the URL is an alternate URL, even when content also lives
     * there; otherwise the post there; otherwise the page there; otherwise nothing.
     */
    function GetContentAt(url: string): (r: Option<Content>)
      requires UrlsIndexed()
      reads alternateUrlMappings
      ensures url in alternateUrlMappings.mapping ==> r == Some(Redirect(alternateUrlMappings.mapping[url]))
      ensures r.Some? && r.value.PostContent? ==>
        url !in alternateUrlMappings.mapping && r.value.post in posts && r.value.post.url == url
      ensures r.Some? && r.value.PageContent? ==>
        url !in alternateUrlMappings.mapping && (forall i :: 0 <= i < |posts| ==> posts[i].url != url) &&
        r.value.page in pages && r.value.page.url == url
      ensures url !in alternateUrlMappings.mapping && (exists i :: 0 <= i < |posts| && posts[i].url == url) ==>
        r.Some? && r.value.PostContent?
      ensures r.None? <==>
        url !in alternateUrlMappings.mapping &&
        (forall i :: 0 <= i < |posts| ==> posts[i].url != url) &&
        (forall i :: 0 <= i < |pages| ==> pages[i].url != url)
      ensures r.Some? && r.value.Redirect? ==> url in alternateUrlMappings.mapping
      ensures url !in alternateUrlMappings.mapping ==>
        r == (if GetPostByUrl(url).Some? then Some(PostContent(GetPostByUrl(url).value))
              else if GetPageByUrl(url).Some? then Some(PageContent(GetPageByUrl(url).value))
              else None)
    {
      match alternateUrlMappings.Get(url)
      case Some(newUrl) => Some(Redirect(newUrl))
      case None =>
        match GetPostByUrl(url)
        case Some(post) => Some(PostContent(post))
        case None =>
          match GetPageByUrl(url)
          case Some(page) => Some(PageContent(page))
          case None => None
    }

    /** `get_posts_ordered_by_date`: all posts, newest first in every valid index. */
    function GetPostsOrderedByDate(): (r: seq<Post>)
      requires Valid()
      reads postTagMappings
      ensures r == posts && DateDescending(r)
    {
      posts
    }

    /** `get_latest_post`: the first post, which in a valid index is one no other post is newer than. */
    function GetLatestPost(): (r: Option<Post>)
      ensures r.None? <==> posts == []
      ensures r.Some? ==> r.value == posts[0]
      ensures r.Some? && DateDescending(posts) ==> forall i :: 0 <= i < |posts| ==> !Earlier(r.value.date, posts[i].date)
    {
      if posts == [] then None else Some(posts[0])
    }

    /** The posts in the RSS feed: the first `count` of them, or all when there are fewer. */
    function FeedPosts(): (r: seq<Post>)
      ensures |r| == if rss.count < |posts| then rss.count else |posts|
      ensures r == posts[..|r|]
      ensures DateDescending(posts) ==>
        forall i, j :: 0 <= i < |r| <= j < |posts| ==> !Earlier(r[i].date, posts[j].date)
    {
      if rss.count < |posts| then posts[..rss.count] else posts
    }

    /**
     * `get_posts_with_tag_ordered_by_date`: the posts carrying the tag, each as often as it lists
     * the tag, newest first; none for a tag no post carries.
     */
    method GetPostsWithTagOrderedByDate(tag: string) returns (r: seq<Post>)
      requires Valid()
      ensures forall k :: 0 <= k < |r| ==> r[k] in posts && tag in r[k].tags
      ensures forall i :: 0 <= i < |posts| && tag in posts[i].tags ==> posts[i] in r
      ensures forall k1, k2 :: 0 <= k1 < k2 < |r| ==> !Earlier(r[k1].date, r[k2].date)
      ensures tag !in postTagMappings.mapping ==> r == []
      ensures |r| == |Lookup(postTagMappings.mapping, tag)|
      ensures forall k :: 0 <= k < |r| ==>
        Lookup(postTagMappings.mapping, tag)[k] < |posts| && r[k] == posts[Lookup(postTagMappings.mapping, tag)[k]]
    {
      TagIndexLists(posts, tag);
      var indices := Lookup(postTagMappings.mapping, tag);
      r := [];
      for k := 0 to |indices|
        invariant |r| == k
        invariant forall m :: 0 <= m < k ==> r[m] == posts[indices[m]]
      {
        r := r + [posts[indices[k]]];
      }
      forall k1, k2 | 0 <= k1 < k2 < |r|
        ensures !Earlier(r[k1].date, r[k2].date)
      {
        if indices[k1] == indices[k2] {
          EarlierIrreflexive(r[k1].date);
        }
      }
      forall i | 0 <= i < |posts| && tag in posts[i].tags
        ensures posts[i] in r
      {
        var m :| 0 <= m < |indices| && indices[m] == i;
        assert r[m] == posts[i];
      }
    }

    /** `SiteContent::new`: render every page, then every post newest first, filling the tables as it goes. */
    static method New(pagesConfig: Config.Pages, postsConfig: Config.Posts, renderer: ContentRenderer)
      returns (r: Result<SiteContent, SiteError>)
      ensures r.Err? <==> Build(renderer, pagesConfig, postsConfig).Err?
      ensures r.Err? ==> r.error == Build(renderer, pagesConfig, postsConfig).error
      ensures r.Ok? ==> fresh(r.value) && fresh(r.value.alternateUrlMappings) && fresh(r.value.postTagMappings)
      ensures r.Ok? ==> r.value.BuiltFrom(renderer, pagesConfig, postsConfig)
    {
      var alternateUrlMappings := new AlternateUrlMappings();
      var postTagMappings := new PostsByTag();

      var pages, pagesByUrl := LoadPages(pagesConfig.pages, renderer, alternateUrlMappings);
      if pages.Err? {
        return Err(pages.error);
      }
      var postConfigs := SortedPosts(postsConfig.posts);
      var posts, postsByUrl := LoadPosts(postConfigs, renderer, alternateUrlMappings, postTagMappings,
                                         PageAlternates(pagesConfig.pages), PageUrls(pages.value));
      if posts.Err? {
        return Err(posts.error);
      }

      var rss := RssMetadataFrom(postsConfig.rss);
      var content := new SiteContent(pages.value, posts.value, pagesByUrl, postsByUrl, alternateUrlMappings, postTagMappings, rss);
      r := Ok(content);
    }

    /** The page loop of `SiteContent::new`. */
    static method LoadPages(configs: seq<Config.Page>, renderer: ContentRenderer, alternates: AlternateUrlMappings)
      returns (r: Result<seq<Page>, SiteError>, pagesByUrl: map<string, nat>)
      requires alternates.mapping == map[]
      modifies alternates
      ensures r == RenderedPages(renderer, configs)
      ensures r.Ok? ==> pagesByUrl == UrlIndex(PageUrls(r.value))
      ensures r.Ok? ==> alternates.mapping == Redirects(map[], PageAlternates(configs), PageUrls(r.value))
    {
      var pages: seq<Page> := [];
      pagesByUrl := map[];
      for index := 0 to |configs|
        invariant RenderAll(configs[..index], PageRenderer(renderer)) == Ok(pages) && |pages| == index
        invariant pagesByUrl == UrlIndex(PageUrls(pages))
        invariant alternates.mapping == Redirects(map[], PageAlternates(configs[..index]), PageUrls(pages))
      {
        var page := PageTryFrom(configs[index], renderer);
        if page.Err? {
          FirstFailure(configs, PageRenderer(renderer), index);
          return Err(page.error), pagesByUrl;
        }
        PageStep(configs, renderer, index, pages, page.value);
        if configs[index].alternateUrls.Some? {
          alternates.AddMappings(configs[index].alternateUrls.value, page.value.url);
        }
        pagesByUrl := pagesByUrl[page.value.url := index];
        pages := pages + [page.value];
      }
      assert configs[..|configs|] == configs;
      r := Ok(pages);
    }

    /** The post loop of `SiteContent::new`, over the posts already in listing order. */
    static method LoadPosts(configs: seq<Config.Post>, renderer: ContentRenderer,
                            alternates: AlternateUrlMappings, postTags: PostsByTag,
                            ghost priorAlternates: seq<Option<seq<string>>>, ghost priorTargets: seq<string>)
      returns (r: Result<seq<Post>, SiteError>, postsByUrl: map<string, nat>)
      requires |priorAlternates| == |priorTargets|
      requires alternates.mapping == Redirects(map[], priorAlternates, priorTargets)
      requires postTags.mapping == map[]
      modifies alternates, postTags
      ensures r == RenderAll(configs, PostRenderer(renderer))
      ensures r.Ok? ==> postsByUrl == UrlIndex(PostUrls(r.value))
      ensures r.Ok? ==>
        alternates.mapping == Redirects(map[], priorAlternates + PostAlternates(configs), priorTargets + PostUrls(r.value))
      ensures r.Ok? ==> postTags.mapping == TagIndex(r.value)
    {
      var posts: seq<Post> := [];
      postsByUrl := map[];
      assert priorAlternates + PostAlternates(configs[..0]) == priorAlternates;
      assert priorTargets + PostUrls(posts) == priorTargets;
      for index := 0 to |configs|
        invariant RenderAll(configs[..index], PostRenderer(renderer)) == Ok(posts) && |posts| == index
        invariant postsByUrl == UrlIndex(PostUrls(posts))
        invariant alternates.mapping ==
          Redirects(map[], priorAlternates + PostAlternates(configs[..index]), priorTargets + PostUrls(posts))
        invariant postTags.mapping == TagIndex(posts)
      {
        var post := PostTryFrom(configs[index], renderer);
        if post.Err? {
          FirstFailure(configs, PostRenderer(renderer), index);
          return Err(post.error), postsByUrl;
        }
        PostStep(configs, renderer, index, posts, post.value, postsByUrl, postTags.mapping);
        PostRedirectsStep(configs, index, posts, post.value, priorAlternates, priorTargets);
        RegisterPost(alternates, postTags, index, post.value, configs[index].alternateUrls);
        postsByUrl := postsByUrl[post.value.url := index];
        posts := posts + [post.value];
      }
      assert configs[..|configs|] == configs;
      r := Ok(posts);
    }
  }

  /** One iteration of the page loop keeps the invariants of its list and of its URL and redirect tables. */
  lemma PageStep(configs: seq<Config.Page>, renderer: ContentRenderer, index: nat, pages: seq<Page>, page: Page)
    requires index < |configs| && |pages| == index
    requires RenderAll(configs[..index], PageRenderer(renderer)) == Ok(pages)
    requires PageTryFrom(configs[index], renderer) == Ok(page)
    ensures RenderAll(configs[..index + 1], PageRenderer(renderer)) == Ok(pages + [page])
    ensures UrlIndex(PageUrls(pages))[page.url := index] == UrlIndex(PageUrls(pages + [page]))
    ensures Redirects(map[], PageAlternates(configs[..index + 1]), PageUrls(pages + [page])) ==
      match configs[index].alternateUrls
      case None => Redirects(map[], PageAlternates(configs[..index]), PageUrls(pages))
      case Some(urls) => WithAlternates(Redirects(map[], PageAlternates(configs[..index]), PageUrls(pages)), urls, page.url)
  {
    RenderAllStep(configs, PageRenderer(renderer), index, pages);
    PageListsSnoc(configs, index, pages, page);
    UrlIndexSnoc(PageUrls(pages), page.url);
    RedirectsSnoc(PageAlternates(configs[..index]), PageUrls(pages), configs[index].alternateUrls, page.url);
  }

  lemma PageListsSnoc(configs: seq<Config.Page>, i: nat, pages: seq<Page>, page: Page)
    requires i < |configs|
    ensures PageAlternates(configs[..i + 1]) == PageAlternates(configs[..i]) + [configs[i].alternateUrls]
    ensures PageUrls(pages + [page]) == PageUrls(pages) + [page.url]
  {
    assert PageAlternates(configs[..i + 1]) == PageAlternates(configs[..i]) + [configs[i].alternateUrls];
    assert PageUrls(pages + [page]) == PageUrls(pages) + [page.url];
  }

  /** Indexing one more URL is one overwriting insert. */
  lemma UrlIndexSnoc(urls: seq<string>, u: string)
    ensures UrlIndex(urls + [u]) == UrlIndex(urls)[u := |urls|]
  {
    assert (urls + [u])[..|urls|] == urls;
  }

  /** Indexing one more post adds its position under each of its tags. */
  lemma TagIndexSnoc(posts: seq<Post>, post: Post)
    ensures TagIndex(posts + [post]) == WithTags(TagIndex(posts), |posts|, post.tags)
  {
    assert (posts + [post])[..|posts|] == posts;
  }

  /** One iteration of the post loop keeps the invariants of its list and of its URL and tag tables. */
  lemma PostStep(configs: seq<Config.Post>, renderer: ContentRenderer, index: nat, posts: seq<Post>, post: Post,
                 postsByUrl: map<string, nat>, tags: map<string, seq<nat>>)
    requires index < |configs| && |posts| == index
    requires RenderAll(configs[..index], PostRenderer(renderer)) == Ok(posts)
    requires postsByUrl == UrlIndex(PostUrls(posts))
    requires tags == TagIndex(posts)
    requires PostTryFrom(configs[index], renderer) == Ok(post)
    ensures RenderAll(configs[..index + 1], PostRenderer(renderer)) == Ok(posts + [post])
    ensures postsByUrl[post.url := index] == UrlIndex(PostUrls(posts + [post]))
    ensures WithTags(tags, index, post.tags) == TagIndex(posts + [post])
  {
    RenderAllStep(configs, PostRenderer(renderer), index, posts);
    PostUrlsSnoc(posts, post);
    UrlIndexSnoc(PostUrls(posts), post.url);
    TagIndexSnoc(posts, post);
  }

  lemma PostUrlsSnoc(posts: seq<Post>, post: Post)
    ensures PostUrls(posts + [post]) == PostUrls(posts) + [post.url]
  {
    assert PostUrls(posts + [post]) == PostUrls(posts) + [post.url];
  }

  /** One iteration of the post loop keeps the invariant of the redirect table. */
  lemma PostRedirectsStep(configs: seq<Config.Post>, index: nat, posts: seq<Post>, post: Post,
                          priorAlternates: seq<Option<seq<string>>>, priorTargets: seq<string>)
    requires index < |configs| && |priorAlternates| == |priorTargets| && |posts| == index
    ensures Redirects(map[], priorAlternates + PostAlternates(configs[..index + 1]), priorTargets + PostUrls(posts + [post])) ==
      match configs[index].alternateUrls
      case None => Redirects(map[], priorAlternates + PostAlternates(configs[..index]), priorTargets + PostUrls(posts))
      case Some(urls) => WithAlternates(Redirects(map[], priorAlternates + PostAlternates(configs[..index]), priorTargets + PostUrls(posts)), urls, post.url)
  {
    PostListsSnoc(configs, index, posts, post, priorAlternates, priorTargets);
    RedirectsSnoc(priorAlternates + PostAlternates(configs[..index]), priorTargets + PostUrls(posts),
                  configs[index].alternateUrls, post.url);
  }

  /** The two table updates of one post: its alternate URLs, then its tags. */
  method RegisterPost(alternates: AlternateUrlMappings, postTags: PostsByTag, index: nat, post: Post, alternateUrls: Option<seq<string>>)
    modifies alternates, postTags
    ensures alternates.mapping ==
      match alternateUrls
      case None => old(alternates.mapping)
      case Some(urls) => WithAlternates(old(alternates.mapping), urls, post.url)
    ensures postTags.mapping == WithTags(old(postTags.mapping), index, post.tags)
  {
    if alternateUrls.Some? {
      alternates.AddMappings(alternateUrls.value, post.url);
    }
    postTags.AddMappings(index, post.tags);
  }

  lemma PostListsSnoc(configs: seq<Config.Post>, i: nat, posts: seq<Post>, post: Post,
                      priorAlternates: seq<Option<seq<string>>>, priorTargets: seq<string>)
    requires i < |configs|
    ensures priorAlternates + PostAlternates(configs[..i + 1]) ==
      (priorAlternates + PostAlternates(configs[..i])) + [configs[i].alternateUrls]
    ensures PostUrls(posts + [post]) == PostUrls(posts) + [post.url]
    ensures priorTargets + PostUrls(posts + [post]) == (priorTargets + PostUrls(posts)) + [post.url]
  {
    assert PostAlternates(configs[..i + 1]) == PostAlternates(configs[..i]) + [configs[i].alternateUrls];
    assert PostUrls(posts + [post]) == PostUrls(posts) + [post.url];
  }

  /** Registering one more item's alternate URLs is one step of the redirect table. */
  lemma RedirectsSnoc(alternates: seq<Option<seq<string>>>, targets: seq<string>, a: Option<seq<string>>, t: string)
    requires |alternates| == |targets|
    ensures Redirects(map[], alternates + [a], targets + [t]) ==
      match a
      case None => Redirects(map[], alternates, targets)
      case Some(urls) => WithAlternates(Redirects(map[], alternates, targets), urls, t)
  {
    assert (alternates + [a])[..|alternates|] == alternates;
    assert (targets + [t])[..|targets|] == targets;
  }

  // ---------------------------------------------------------------------------
  // SiteService

  /** The running site: its renderer and the current content index, replaced as a whole on refresh. */
  class SiteService {
    const contentRenderer: ContentRenderer
    var content: SiteContent

    /** The service's invariant is its current index's. */
    predicate Valid()
      reads this, content, content.postTagMappings
    {
      content.Valid()
    }

    constructor (contentRenderer: ContentRenderer, content: SiteContent)
      ensures this.contentRenderer == contentRenderer && this.content == content
    {
      this.contentRenderer := contentRenderer;
      this.content := content;
    }

    /** `SiteService::new`: the renderer, then the first build; either failing fails the whole. */
    static method New(markdownRenderer: Result<Markdown.MarkdownRenderer, Markdown.MarkdownError>,
                      cmark: CodeBlocks.Pulldown, readFile: string -> Option<string>,
                      pagesConfig: Config.Pages, postsConfig: Config.Posts)
      returns (r: Result<SiteService, SiteError>)
      ensures markdownRenderer.Err? ==> r == Err(ContentError(MarkdownError(markdownRenderer.error)))
      ensures markdownRenderer.Ok? ==>
        var renderer := ContentRenderer(markdownRenderer.value, cmark, readFile);
        (r.Err? <==> Build(renderer, pagesConfig, postsConfig).Err?) &&
        (r.Err? ==> r.error == Build(renderer, pagesConfig, postsConfig).error) &&
        (r.Ok? ==> fresh(r.value) && r.value.contentRenderer == renderer &&
                   r.value.content.BuiltFrom(renderer, pagesConfig, postsConfig) && r.value.Valid())
    {
      var renderer := NewContentRenderer(markdownRenderer, cmark, readFile);
      if renderer.Err? {
        return Err(ContentError(renderer.error));
      }
      var content := SiteContent.New(pagesConfig, postsConfig, renderer.value);
      if content.Err? {
        return Err(content.error);
      }
      content.value.BuiltIsValid(renderer.value, pagesConfig, postsConfig);
      var service := new SiteService(renderer.value, content.value);
      r := Ok(service);
    }

    /**
     * `refresh_content`: rebuild from the given records; on success the new index replaces the
     * old one whole, on failure the old one stays and the build's error is returned.
     */
    method RefreshContent(pagesConfig: Config.Pages, postsConfig: Config.Posts) returns (r: Result<(), SiteError>)
      modifies this
      ensures r.Err? <==> Build(contentRenderer, pagesConfig, postsConfig).Err?
      ensures r.Err? ==> content == old(content) && r.error == Build(contentRenderer, pagesConfig, postsConfig).error
      ensures r.Ok? ==> fresh(content) && fresh(content.alternateUrlMappings) && fresh(content.postTagMappings)
      ensures r.Ok? ==> content.BuiltFrom(contentRenderer, pagesConfig, postsConfig) && Valid()
      ensures old(Valid()) ==> Valid()
    {
      var built := SiteContent.New(pagesConfig, postsConfig, contentRenderer);
      if built.Err? {
        return Err(built.error);
      }
      built.value.BuiltIsValid(contentRenderer, pagesConfig, postsConfig);
      content := built.value;
      r := Ok(());
    }
  }
}
