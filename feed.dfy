/** The feed of the site (app/rss.xml/route.ts): one `<item>` per blog post
    and per PDF note, newest first, in an RSS 2.0 channel with the
    `content:encoded` element of the RSS 1.0 Content module and an Atom
    `self` link (section 4.2.7.2 of RFC 4287). */
module RssFeed {
  import opened Wrappers
  import opened Text
  import opened FrontMatter
  import opened RssEscape
  import opened RssCdata
  import opened RssContent
  import Lists
  import Blog
  import Notes

  const SiteUrl := "https://poyrazavsever.com"
  const SiteTitle := "Poyraz Avsever Blog"
  const SiteDescription := "Personal blog of Poyraz Avsever - Developer and Designer"
  const FeedUrl := SiteUrl + "/rss.xml"

  datatype FeedItem = FeedItem(
    title: string,
    description: string,
    link: string,
    guid: string,
    pubDate: string,
    categories: Option<seq<string>>,
    contentHtml: Option<string>)

  function CategoryElement(tag: string): string {
    "<category>" + WrapCdata(tag) + "</category>"
  }

  /** One `<category>` per tag, in tag order. */
  function CategoryElements(tags: seq<string>): seq<string> {
    seq(|tags|, i requires 0 <= i < |tags| => CategoryElement(tags[i]))
  }

  /** `item.categories?.length ? ... : ""` */
  function CategoriesXml(categories: Option<seq<string>>): (r: string)
    ensures r == [] <==> categories.None? || categories.value == []
    ensures categories.Some? ==> forall t :: t in categories.value ==> Contains(r, CategoryElement(t))
  {
    if categories.None? || categories.value == [] then []
    else
      var tags := categories.value;
      var parts := CategoryElements(tags);
      assert parts[0] <= Concat(parts);
      forall t | t in tags ensures Contains(Concat(parts), CategoryElement(t)) {
        var i :| 0 <= i < |tags| && tags[i] == t;
        ConcatContains(parts, i);
      }
      Concat(parts)
  }

  function EncodedElement(html: string): string {
    "<content:encoded>" + WrapCdata(html) + "</content:encoded>"
  }

  /** `item.contentHtml ? ... : ""`: the empty string counts as absent. */
  function EncodedContent(contentHtml: Option<string>): (r: string)
    ensures r == [] <==> contentHtml.None? || contentHtml.value == []
    ensures r != [] ==> r == EncodedElement(contentHtml.value)
  {
    if contentHtml.None? || contentHtml.value == [] then [] else EncodedElement(contentHtml.value)
  }

  function TitleElement(title: string): string {
    "<title>" + WrapCdata(title) + "</title>"
  }

  function DescriptionElement(description: string): string {
    "<description>" + WrapCdata(description) + "</description>"
  }

  function LinkElement(link: string): string {
    "<link>" + EscapeXml(link) + "</link>"
  }

  function GuidElement(guid: string): string {
    "<guid isPermaLink=\"true\">" + EscapeXml(guid) + "</guid>"
  }

  function PubDateElement(pubDate: string): string {
    "<pubDate>" + pubDate + "</pubDate>"
  }

  /** The pieces of the item template, in order. */
  function ItemParts(item: FeedItem): seq<string> {
    [ "\n    <item>\n      ", TitleElement(item.title),
      "\n      ", DescriptionElement(item.description),
      "\n      ", EncodedContent(item.contentHtml),
      "\n      ", LinkElement(item.link),
      "\n      ", GuidElement(item.guid),
      "\n      ", PubDateElement(item.pubDate),
      "\n      ", CategoriesXml(item.categories),
      "\n    </item>\n  " ]
  }

  /** `buildItemXml(item)`: title and description in CDATA, link and guid
      escaped, the content and category elements only when there is
      something to put in them. */
  function BuildItemXml(item: FeedItem): (r: string)
    ensures Contains(r, TitleElement(item.title)) && Contains(r, DescriptionElement(item.description))
    ensures Contains(r, LinkElement(item.link)) && Contains(r, GuidElement(item.guid))
    ensures Contains(r, PubDateElement(item.pubDate))
    ensures item.contentHtml.Some? && item.contentHtml.value != [] ==> Contains(r, EncodedElement(item.contentHtml.value))
    ensures Contains(r, CategoriesXml(item.categories))
    ensures |r| > 0
  {
    var parts := ItemParts(item);
    ConcatContains(parts, 1);
    ConcatContains(parts, 3);
    ConcatContains(parts, 5);
    ConcatContains(parts, 7);
    ConcatContains(parts, 9);
    ConcatContains(parts, 11);
    ConcatContains(parts, 13);
    assert item.contentHtml.Some? && item.contentHtml.value != [] ==> parts[5] == EncodedElement(item.contentHtml.value);
    Concat(parts)
  }

  /** The item holds a category element for every tag. */
  lemma BuildItemXmlCategories(item: FeedItem)
    requires item.categories.Some?
    ensures forall t :: t in item.categories.value ==> Contains(BuildItemXml(item), CategoryElement(t))
  {
    var r, c := BuildItemXml(item), CategoriesXml(item.categories);
    forall t | t in item.categories.value ensures Contains(r, CategoryElement(t)) {
      ContainsTransitive(r, c, CategoryElement(t));
    }
  }

  /** An absent and an empty optional field give the same item. */
  lemma BuildItemXmlEmptyOptionals(item: FeedItem)
    ensures BuildItemXml(item.(categories := None)) == BuildItemXml(item.(categories := Some([])))
    ensures BuildItemXml(item.(contentHtml := None)) == BuildItemXml(item.(contentHtml := Some([])))
  {
    assert ItemParts(item.(categories := None)) == ItemParts(item.(categories := Some([])));
    assert ItemParts(item.(contentHtml := None)) == ItemParts(item.(contentHtml := Some([])));
  }

  /** The link and guid elements hold text that decodes back to the item's
      own link and guid, and no markup. */
  lemma ItemLinksRoundTrip(item: FeedItem)
    ensures UnescapeXml(EscapeXml(item.link)) == item.link && UnescapeXml(EscapeXml(item.guid)) == item.guid
    ensures '<' !in EscapeXml(item.link) && '<' !in EscapeXml(item.guid)
  {
    UnescapeEscapeXml(item.link);
    UnescapeEscapeXml(item.guid);
    EscapeXmlNoMarkup(item.link);
    EscapeXmlNoMarkup(item.guid);
  }

  /** `(a, b) => time(b) - time(a)` is negative: `a` is later. */
  function Later(timeOf: string -> int): (FeedItem, FeedItem) -> bool {
    (a: FeedItem, b: FeedItem) => timeOf(a.pubDate) > timeOf(b.pubDate)
  }

  function HasTime(timeOf: string -> int, t: int): FeedItem -> bool {
    (x: FeedItem) => timeOf(x.pubDate) == t
  }

  /** `[...items].sort(...)`: a sorted copy, a permutation of the items,
      newest first, items of equal time left in their original order. */
  function FeedOrder(items: seq<FeedItem>, timeOf: string -> int): (r: seq<FeedItem>)
    ensures multiset(r) == multiset(items)
    ensures forall i, j :: 0 <= i < j < |r| ==> timeOf(r[i].pubDate) >= timeOf(r[j].pubDate)
    ensures forall t :: Lists.Filter(r, HasTime(timeOf, t)) == Lists.Filter(items, HasTime(timeOf, t))
  {
    var r := Lists.SortBy(items, Later(timeOf));
    Lists.SortBySorted(items, Later(timeOf));
    forall t ensures Lists.Filter(r, HasTime(timeOf, t)) == Lists.Filter(items, HasTime(timeOf, t)) {
      Lists.SortByKeepsClassOrder(items, Later(timeOf), HasTime(timeOf, t));
    }
    r
  }

  /** Every item's XML occurs in the document. */
  predicate Carries(xml: string, items: seq<FeedItem>) {
    forall it :: it in items ==> Contains(xml, BuildItemXml(it))
  }

  /** `items.map(f)` */
  function MapItems(f: FeedItem -> string, items: seq<FeedItem>): (r: seq<string>)
    ensures |r| == |items|
    ensures forall i :: 0 <= i < |items| ==> r[i] == f(items[i])
  {
    seq(|items|, i requires 0 <= i < |items| => f(items[i]))
  }

  lemma MapItemsAppend(f: FeedItem -> string, a: seq<FeedItem>, b: seq<FeedItem>)
    ensures MapItems(f, a + b) == MapItems(f, a) + MapItems(f, b)
  {
    var pab, pa, pb := MapItems(f, a + b), MapItems(f, a), MapItems(f, b);
    assert forall i :: 0 <= i < |a| ==> pab[i] == pa[i];
    assert forall i :: |a| <= i < |pab| ==> pab[i] == pb[i - |a|];
  }

  /** `items.map(buildItemXml).join("")`: empty exactly when there are no
      items, and every item's XML occurs in it. */
  function ItemsXml(items: seq<FeedItem>): (r: string)
    ensures r == [] <==> items == []
    ensures Carries(r, items)
  {
    var parts := MapItems(BuildItemXml, items);
    forall it | it in items ensures Contains(Concat(parts), BuildItemXml(it)) {
      var i :| 0 <= i < |items| && items[i] == it;
      ConcatContains(parts, i);
    }
    assert items != [] ==> parts[0] <= Concat(parts);
    Concat(parts)
  }

  /** The XML of one item is that item's `buildItemXml`. */
  lemma ItemsXmlSingle(x: FeedItem)
    ensures ItemsXml([x]) == BuildItemXml(x)
  {
    var parts := MapItems(BuildItemXml, [x]);
    assert parts == [BuildItemXml(x)];
    assert Concat(parts) == BuildItemXml(x) + Concat([]);
  }

  /** The items' XML is written item after item: the XML of `a + b` is the
      XML of `a` followed by the XML of `b`. */
  lemma ItemsXmlAppend(a: seq<FeedItem>, b: seq<FeedItem>)
    ensures ItemsXml(a + b) == ItemsXml(a) + ItemsXml(b)
  {
    MapItemsAppend(BuildItemXml, a, b);
    ConcatAppend(MapItems(BuildItemXml, a), MapItems(BuildItemXml, b));
  }

  /** The channel up to the items, with the build date. */
  function ChannelHead(buildDate: string): string {
    Concat([
      "<?xml version=\"1.0\" encoding=\"UTF-8\"?>\n<rss version=\"2.0\"\n",
      "     xmlns:content=\"http://purl.org/rss/1.0/modules/content/\"\n",
      "     xmlns:atom=\"http://www.w3.org/2005/Atom\">\n  <channel>\n",
      "    <title>", WrapCdata(SiteTitle), "</title>\n",
      "    <description>", WrapCdata(SiteDescription), "</description>\n",
      "    <link>", SiteUrl, "</link>\n",
      "    <language>en-us</language>\n",
      "    <managingEditor>poyrazavsever@gmail.com (Poyraz Avsever)</managingEditor>\n",
      "    <webMaster>poyrazavsever@gmail.com (Poyraz Avsever)</webMaster>\n",
      "    <lastBuildDate>", buildDate, "</lastBuildDate>\n",
      "    <atom:link href=\"", FeedUrl, "\" rel=\"self\" type=\"application/rss+xml\" />\n",
      "    <image>\n",
      "      <url>", SiteUrl, "/avatars/activitybar.jpeg</url>\n",
      "      <title>", WrapCdata(SiteTitle), "</title>\n",
      "      <link>", SiteUrl, "</link>\n",
      "    </image>\n    "])
  }

  const ChannelTail := "\n  </channel>\n</rss>"

  /** The order `generateRssXml` writes the items in: a permutation of
      them, newest first, with items of equal time in their original
      order. */
  ghost predicate NewestFirst(sorted: seq<FeedItem>, items: seq<FeedItem>, timeOf: string -> int) {
    && multiset(sorted) == multiset(items)
    && (forall i, j :: 0 <= i < j < |sorted| ==> timeOf(sorted[i].pubDate) >= timeOf(sorted[j].pubDate))
    && (forall t :: Lists.Filter(sorted, HasTime(timeOf, t)) == Lists.Filter(items, HasTime(timeOf, t)))
  }

  /** `generateRssXml(items)`, with the clock's `toUTCString()` passed in:
      every item appears, newest first; no items give the bare channel. */
  function GenerateRssXml(items: seq<FeedItem>, timeOf: string -> int, buildDate: string): (r: string)
    ensures Carries(r, items)
  {
    var sorted := FeedOrder(items, timeOf);
    var head, body := ChannelHead(buildDate), ItemsXml(sorted);
    CarriesWithin(head, body, ChannelTail, sorted, items);
    head + body + ChannelTail
  }

  /** The document is the channel head, then the XML of the items in
      newest-first order, each once, then the channel's close. */
  lemma GenerateRssXmlOrdered(items: seq<FeedItem>, timeOf: string -> int, buildDate: string)
    ensures exists sorted ::
      && NewestFirst(sorted, items, timeOf)
      && GenerateRssXml(items, timeOf, buildDate) == ChannelHead(buildDate) + ItemsXml(sorted) + ChannelTail
  {
    var sorted := FeedOrder(items, timeOf);
    assert NewestFirst(sorted, items, timeOf);
    assert GenerateRssXml(items, timeOf, buildDate) == ChannelHead(buildDate) + ItemsXml(sorted) + ChannelTail;
  }

  /** No items give the bare channel. */
  lemma GenerateRssXmlEmpty(timeOf: string -> int, buildDate: string)
    ensures GenerateRssXml([], timeOf, buildDate) == ChannelHead(buildDate) + ChannelTail
  {
    var head, body := ChannelHead(buildDate), ItemsXml(FeedOrder([], timeOf));
    assert body == [];
    SeqAppendEmpty(head, ChannelTail);
  }

  lemma SeqAppendEmpty(a: string, c: string)
    ensures a + [] + c == a + c
  {
  }

  /** Text around a document that carries a reordering of the items still
      carries them. */
  lemma CarriesWithin(head: string, body: string, tail: string, sorted: seq<FeedItem>, items: seq<FeedItem>)
    requires Carries(body, sorted) && multiset(sorted) == multiset(items)
    ensures Carries(head + body + tail, items)
  {
    forall it | it in items ensures Contains(head + body + tail, BuildItemXml(it)) {
      assert it in multiset(sorted);
      ContainsWithin(head, body, tail, BuildItemXml(it));
    }
  }

  /** `normalizeDate(value)` as a timestamp: the clock's time `now` when the
      value is absent, empty or unparsable. */
  function NormalizeDate(value: Option<string>, parse: string -> Option<int>, now: int): (t: int)
    ensures value.Some? && value.value != [] && parse(value.value).Some? ==> t == parse(value.value).value
    ensures value.None? || value.value == [] || parse(value.value).None? ==> t == now
  {
    if value.None? || value.value == [] then now
    else match parse(value.value)
      case None => now
      case Some(t) => t
  }

  function BlogUrl(slug: string): string {
    SiteUrl + "/blog/" + slug
  }

  /** The HTML of a blog item: the description paragraph when there is a
      non-empty description, the formatted body, and a link back. */
  function BlogContentHtml(post: Blog.LoadedBlogPost): string {
    var d := post.meta.description;
    "<div>" + (if d.Some? && d.value != [] then "<p>" + EscapeHtml(d.value) + "</p>" else "")
    + FormatContent(post.content) + "<p><a href=\"" + BlogUrl(post.meta.slug) + "\">Read more on the website</a></p></div>"
  }

  /** The feed item of a blog post. */
  function BlogItem(post: Blog.LoadedBlogPost, parse: string -> Option<int>, now: int, utc: int -> string): (item: FeedItem)
    ensures item.link == item.guid == SiteUrl + "/blog/" + post.meta.slug
    ensures item.title == post.meta.title
    ensures post.meta.description.None? ==> item.description == []
    ensures post.meta.description.Some? ==> item.description == post.meta.description.value
    ensures item.categories == Some(post.meta.tags)
    ensures item.pubDate == utc(NormalizeDate(post.meta.date, parse, now))
    ensures item.contentHtml == Some(BlogContentHtml(post))
  {
    var url := BlogUrl(post.meta.slug);
    FeedItem(post.meta.title, post.meta.description.GetOr([]), url, url,
      utc(NormalizeDate(post.meta.date, parse, now)), Some(post.meta.tags), Some(BlogContentHtml(post)))
  }

  /** The HTML of a note item: a link to the notes shelf and the
      download link. */
  function NoteContentHtml(noteUrl: string): string {
    "<div><p>This PDF note lives in my <a href=\"" + SiteUrl + "/notes\">Notes</a> shelf.</p><p><a href=\""
    + noteUrl + "\">Download the PDF</a></p></div>"
  }

  /** The feed item of a note, with its modification time (or the clock's
      time when `stat` failed) and `encodeURIComponent` passed in. */
  function NoteItem(note: Notes.NoteFile, updatedAt: int, utc: int -> string, encode: string -> string): (item: FeedItem)
    ensures item.title == note.title + " (Note)"
    ensures item.description == "New PDF note available: " + note.title
    ensures item.link == item.guid == SiteUrl + "/api/notes/" + encode(note.slug)
    ensures item.pubDate == utc(updatedAt)
    ensures item.categories == Some(["notes"])
    ensures item.contentHtml == Some(NoteContentHtml(item.link))
  {
    var url := SiteUrl + "/api/notes/" + encode(note.slug);
    FeedItem(note.title + " (Note)", "New PDF note available: " + note.title, url, url,
      utc(updatedAt), Some(["notes"]), Some(NoteContentHtml(url)))
  }

  /** The modification time of a note: `fs.stat` of its file, or `now` when
      that fails for any reason. */
  function NoteTime(note: Notes.NoteFile, stat: string -> Option<int>, now: int): (t: int)
    ensures stat(note.fileName).Some? ==> t == stat(note.fileName).value
    ensures stat(note.fileName).None? ==> t == now
  {
    stat(note.fileName).GetOr(now)
  }

  /** `Promise.all(metas.map((meta) => getBlogPostBySlug(meta.slug)))` with
      the missing posts filtered out: each post is read again under the slug
      its metadata ended up with. */
  function LoadPosts(metas: seq<Blog.BlogMeta>, read: string -> Result<Document>): (r: Result<seq<Blog.LoadedBlogPost>>)
    ensures r.Err? ==> r.error == OtherError
    ensures r.Ok? ==> |r.value| <= |metas|
  {
    if metas == [] then Ok([])
    else
      var first := Blog.GetBlogPostBySlug(metas[0].slug, read);
      var rest := LoadPosts(metas[1..], read);
      if first.Err? then Err(first.error)
      else if rest.Err? then Err(rest.error)
      else Ok((if first.value.Some? then [first.value.value] else []) + rest.value)
  }

  /** `metas.map((meta) => getBlogPostBySlug(meta.slug))`: the outcome of
      reading each listed post, in listing order. */
  function Reads(metas: seq<Blog.BlogMeta>, read: string -> Result<Document>): (rs: seq<Result<Option<Blog.LoadedBlogPost>>>)
    ensures |rs| == |metas|
    ensures forall i :: 0 <= i < |metas| ==> rs[i] == Blog.GetBlogPostBySlug(metas[i].slug, read)
  {
    seq(|metas|, i requires 0 <= i < |metas| => Blog.GetBlogPostBySlug(metas[i].slug, read))
  }

  /** `.filter(Boolean)` over the resolved reads: the posts that were found,
      in order. */
  function Found(rs: seq<Result<Option<Blog.LoadedBlogPost>>>): seq<Blog.LoadedBlogPost> {
    if rs == [] then []
    else (if rs[0].Ok? && rs[0].value.Some? then [rs[0].value.value] else []) + Found(rs[1..])
  }

  /** A post is found exactly when some read gave it. */
  lemma {:induction false} FoundMembers(rs: seq<Result<Option<Blog.LoadedBlogPost>>>, p: Blog.LoadedBlogPost)
    ensures p in Found(rs) <==> exists i :: 0 <= i < |rs| && rs[i] == Ok(Some(p))
  {
    if rs != [] {
      FoundMembers(rs[1..], p);
      if exists i :: 0 <= i < |rs[1..]| && rs[1..][i] == Ok(Some(p)) {
        var i :| 0 <= i < |rs[1..]| && rs[1..][i] == Ok(Some(p));
        assert rs[i + 1] == Ok(Some(p));
      }
      if exists i :: 0 <= i < |rs| && rs[i] == Ok(Some(p)) {
        var i :| 0 <= i < |rs| && rs[i] == Ok(Some(p));
        if i > 0 {
          assert rs[1..][i - 1] == Ok(Some(p));
        }
      }
    }
  }

  /** A successful load is the found posts, in listing order: every post
      whose read succeeds is kept, and no other. */
  lemma {:induction false} LoadPostsFound(metas: seq<Blog.BlogMeta>, read: string -> Result<Document>)
    requires LoadPosts(metas, read).Ok?
    ensures LoadPosts(metas, read).value == Found(Reads(metas, read))
  {
    if metas != [] {
      LoadPostsFound(metas[1..], read);
      var rs := Reads(metas, read);
      assert rs[1..] == Reads(metas[1..], read);
      assert rs[0] == Blog.GetBlogPostBySlug(metas[0].slug, read);
    }
  }

  /** No read of a listed post fails other than with ENOENT. */
  predicate NoReadFails(metas: seq<Blog.BlogMeta>, read: string -> Result<Document>) {
    forall i :: 0 <= i < |metas| ==> read(metas[i].slug + ".mdx") != Err(OtherError)
  }

  /** Every listed post is there to be read. */
  predicate AllPostsFound(metas: seq<Blog.BlogMeta>, read: string -> Result<Document>) {
    forall i :: 0 <= i < |metas| ==> read(metas[i].slug + ".mdx").Ok?
  }

  /** Every post is `getBlogPostBySlug` of a listed slug. */
  predicate LoadedFrom(posts: seq<Blog.LoadedBlogPost>, metas: seq<Blog.BlogMeta>, read: string -> Result<Document>) {
    forall p :: p in posts ==> exists i :: 0 <= i < |metas| && Blog.GetBlogPostBySlug(metas[i].slug, read) == Ok(Some(p))
  }

  lemma TailPredicates(metas: seq<Blog.BlogMeta>, read: string -> Result<Document>)
    requires metas != []
    ensures NoReadFails(metas, read) <==> read(metas[0].slug + ".mdx") != Err(OtherError) && NoReadFails(metas[1..], read)
    ensures AllPostsFound(metas, read) <==> read(metas[0].slug + ".mdx").Ok? && AllPostsFound(metas[1..], read)
  {
    assert forall i :: 1 <= i < |metas| ==> metas[i] == metas[1..][i - 1];
  }

  /** The loading fails exactly when some read fails other than with
      ENOENT. */
  lemma {:induction false} LoadPostsOk(metas: seq<Blog.BlogMeta>, read: string -> Result<Document>)
    ensures LoadPosts(metas, read).Ok? <==> NoReadFails(metas, read)
  {
    if metas != [] {
      TailPredicates(metas, read);
      LoadPostsOk(metas[1..], read);
    }
  }

  /** No post is dropped exactly when every listed post is found. */
  lemma {:induction false} LoadPostsComplete(metas: seq<Blog.BlogMeta>, read: string -> Result<Document>)
    requires LoadPosts(metas, read).Ok?
    ensures |LoadPosts(metas, read).value| == |metas| <==> AllPostsFound(metas, read)
  {
    if metas != [] {
      TailPredicates(metas, read);
      LoadPostsComplete(metas[1..], read);
    }
  }

  /** Each loaded post is the one `getBlogPostBySlug` gives for a listed
      slug. */
  lemma {:induction false} LoadPostsSources(metas: seq<Blog.BlogMeta>, read: string -> Result<Document>)
    requires LoadPosts(metas, read).Ok?
    ensures LoadedFrom(LoadPosts(metas, read).value, metas, read)
  {
    if metas != [] {
      var rest := LoadPosts(metas[1..], read);
      LoadPostsSources(metas[1..], read);
      var r := LoadPosts(metas, read).value;
      forall p | p in r ensures exists i :: 0 <= i < |metas| && Blog.GetBlogPostBySlug(metas[i].slug, read) == Ok(Some(p)) {
        if p in rest.value {
          var i :| 0 <= i < |metas[1..]| && Blog.GetBlogPostBySlug(metas[1..][i].slug, read) == Ok(Some(p));
          assert metas[1..][i] == metas[i + 1];
        } else {
          assert Blog.GetBlogPostBySlug(metas[0].slug, read) == Ok(Some(p));
        }
      }
    }
  }

  /** The items of the feed: the blog posts first, then the notes. */
  function FeedItems(posts: seq<Blog.LoadedBlogPost>, notes: seq<Notes.NoteFile>, parse: string -> Option<int>,
                     stat: string -> Option<int>, now: int, utc: int -> string, encode: string -> string): (r: seq<FeedItem>)
    ensures |r| == |posts| + |notes|
    ensures forall i :: 0 <= i < |posts| ==> r[i] == BlogItem(posts[i], parse, now, utc)
    ensures forall i :: 0 <= i < |notes| ==> r[|posts| + i] == NoteItem(notes[i], NoteTime(notes[i], stat, now), utc, encode)
  {
    seq(|posts|, i requires 0 <= i < |posts| => BlogItem(posts[i], parse, now, utc))
    + seq(|notes|, i requires 0 <= i < |notes| => NoteItem(notes[i], NoteTime(notes[i], stat, now), utc, encode))
  }

  /** The items `GET()` gathers: a failure to list the posts, read a post or
      list the notes is passed on. */
  function GatherItems(blogListing: Result<seq<string>>, read: string -> Result<Document>, noteListing: Result<seq<string>>,
                       stat: string -> Option<int>, parse: string -> Option<int>,
                       now: int, utc: int -> string, encode: string -> string): (r: Result<seq<FeedItem>>)
    ensures blogListing.Err? ==> r.Err?
    ensures noteListing == Err(OtherError) ==> r.Err?
    ensures r.Ok? <==>
      var metas := Blog.GetAllBlogPostsMetadata(blogListing, read, parse);
      metas.Ok? && LoadPosts(metas.value, read).Ok? && Notes.GetAllNoteFiles(noteListing).Ok?
    ensures r.Ok? ==>
      var posts := LoadPosts(Blog.GetAllBlogPostsMetadata(blogListing, read, parse).value, read).value;
      r.value == FeedItems(posts, Notes.GetAllNoteFiles(noteListing).value, parse, stat, now, utc, encode)
  {
    var metas := Blog.GetAllBlogPostsMetadata(blogListing, read, parse);
    if metas.Err? then Err(metas.error)
    else
      var posts := LoadPosts(metas.value, read);
      if posts.Err? then Err(posts.error)
      else
        var notes := Notes.GetAllNoteFiles(noteListing);
        if notes.Err? then Err(notes.error)
        else Ok(FeedItems(posts.value, notes.value, parse, stat, now, utc, encode))
  }

  /** `GET()`: the feed XML holding every gathered item, or an error (the 500
      response). */
  function Feed(blogListing: Result<seq<string>>, read: string -> Result<Document>, noteListing: Result<seq<string>>,
                stat: string -> Option<int>, parse: string -> Option<int>, timeOf: string -> int,
                now: int, utc: int -> string, encode: string -> string): (r: Result<string>)
    ensures var items := GatherItems(blogListing, read, noteListing, stat, parse, now, utc, encode);
      && (r.Ok? <==> items.Ok?)
      && (r.Ok? ==> Carries(r.value, items.value))
  {
    Respond(GatherItems(blogListing, read, noteListing, stat, parse, now, utc, encode), timeOf, utc(now))
  }

  /** A successful `GET` answers with the document `generateRssXml` builds
      from the gathered items, dated with the clock's time. */
  lemma FeedDocument(blogListing: Result<seq<string>>, read: string -> Result<Document>, noteListing: Result<seq<string>>,
                     stat: string -> Option<int>, parse: string -> Option<int>, timeOf: string -> int,
                     now: int, utc: int -> string, encode: string -> string)
    ensures var items := GatherItems(blogListing, read, noteListing, stat, parse, now, utc, encode);
      var r := Feed(blogListing, read, noteListing, stat, parse, timeOf, now, utc, encode);
      r.Ok? ==> r.value == GenerateRssXml(items.value, timeOf, utc(now))
  {
    var items := GatherItems(blogListing, read, noteListing, stat, parse, now, utc, encode);
    if items.Ok? {
      RespondFeed(items, timeOf, utc(now));
    }
  }

  /** The response to gathered items: the feed, or the error passed on. */
  function Respond(items: Result<seq<FeedItem>>, timeOf: string -> int, buildDate: string): (r: Result<string>)
    ensures r.Ok? <==> items.Ok?
    ensures r.Ok? ==> Carries(r.value, items.value)
  {
    if items.Err? then Err(items.error) else Ok(GenerateRssXml(items.value, timeOf, buildDate))
  }

  /** A successful response is the document `generateRssXml` builds from
      the gathered items. */
  lemma RespondFeed(items: Result<seq<FeedItem>>, timeOf: string -> int, buildDate: string)
    requires items.Ok?
    ensures Respond(items, timeOf, buildDate) == Ok(GenerateRssXml(items.value, timeOf, buildDate))
  {
  }

  /** A post file `a.mdx` whose front matter renames it to `b`. */
  function RenamedPostRead(file: string): Result<Document> {
    if file == "a.mdx" then Ok(Document(map["slug" := Str("b")], "body")) else Err(NotFound)
  }

  /** The post is listed under its front-matter slug, but the feed reads it
      back from `b.mdx`, which does not exist, so it has no item. */
  lemma RenamedPostLeftOut(parse: string -> Option<int>)
    ensures var metas := Blog.GetAllBlogPostsMetadata(Ok(["a.mdx"]), RenamedPostRead, parse);
      && metas.Ok? && |metas.value| == 1 && metas.value[0].slug == "b"
      && LoadPosts(metas.value, RenamedPostRead) == Ok([])
  {
    assert IsMdx("a.mdx");
    assert MdxFiles(["a.mdx"]) == ["a.mdx"];
    var metas := Blog.GetAllBlogPostsMetadata(Ok(["a.mdx"]), RenamedPostRead, parse);
    assert metas.Ok?;
    var m := ReadAll(["a.mdx"], RenamedPostRead, Blog.NormalizeMeta).value;
    assert m[0].slug == "b";
    assert multiset(metas.value) == multiset(m);
    assert |metas.value| == 1;
    assert metas.value[0] in multiset(m);
    assert ("b" + ".mdx")[0] != "a.mdx"[0];
    assert RenamedPostRead(metas.value[0].slug + ".mdx") == Err(NotFound);
  }
}
