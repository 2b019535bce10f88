/** The content records of src/config.rs, as the site build receives them after JSON loading. */
module Config {
  import opened Wrappers
  import opened Calendar

  datatype Rss = Rss(title: string, description: string, url: string, count: nat)

  datatype Page = Page(filePath: string, title: string, url: string, alternateUrls: Option<seq<string>>)

  datatype Pages = Pages(pages: seq<Page>)

  datatype Post = Post(filePath: string, title: string, date: DateTime, slug: string,
                       alternateUrls: Option<seq<string>>, tags: Option<seq<string>>)

  datatype Posts = Posts(posts: seq<Post>, rss: Rss)
}
