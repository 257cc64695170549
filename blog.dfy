/** The blog accessor (lib/blog.ts): metadata normalisation, the listing of
    `.mdx` posts sorted newest first, and loading one post by slug. */
module Blog {
  import opened Wrappers
  import opened Text
  import opened FrontMatter
  import Lists
  import Ordering

  datatype BlogMeta = BlogMeta(
    slug: string,
    title: string,
    description: Option<string>,
    date: Option<string>,
    tags: seq<string>)

  datatype LoadedBlogPost = LoadedBlogPost(meta: BlogMeta, content: string)

  /** `normalizeMeta(slug, data)` */
  function NormalizeMeta(slug: string, data: Fields): (m: BlogMeta)
    ensures !NonNullish(data, "slug") ==> m.slug == slug
    ensures "slug" in data && data["slug"].Str? ==> m.slug == data["slug"].text
    ensures !NonNullish(data, "title") ==> m.title == slug
    ensures "title" in data && data["title"].Str? ==> m.title == data["title"].text
    ensures m.description.Some? <==> "description" in data && data["description"].Str?
    ensures m.description.Some? ==> m.description.value == data["description"].text
    ensures m.date.Some? <==> "date" in data && data["date"].Str?
    ensures m.date.Some? ==> m.date.value == data["date"].text
    ensures !("tags" in data && data["tags"].Arr?) ==> m.tags == []
    ensures "tags" in data && data["tags"].Arr? ==>
      |m.tags| == |data["tags"].items| && forall i :: 0 <= i < |m.tags| ==> m.tags[i] == ItemText(data["tags"].items[i])
  {
    BlogMeta(
      StringOr(data, "slug", slug),
      StringOr(data, "title", slug),
      StringIfString(data, "description"),
      StringIfString(data, "date"),
      StringsOr(data, "tags"))
  }

  /** Front matter that spells out every field of `m`. */
  function MetaFields(m: BlogMeta): Fields {
    map["slug" := Str(m.slug), "title" := Str(m.title), "tags" := Arr(StrValues(m.tags))]
    + (if m.description.Some? then map["description" := Str(m.description.value)] else map[])
    + (if m.date.Some? then map["date" := Str(m.date.value)] else map[])
  }

  /** Normalisation keeps what well-typed front matter says, whatever the
      file is called. */
  lemma NormalizeMetaRoundTrip(m: BlogMeta, fileSlug: string)
    ensures NormalizeMeta(fileSlug, MetaFields(m)) == m
  {
    var data := MetaFields(m);
    StringsOrOfStrings(data, "tags", m.tags);
  }

  /** `a.date ? new Date(a.date).getTime() : 0`, kept only when it is
      truthy: an absent or empty date, one that does not parse (NaN) and the
      epoch itself all leave the post undated. */
  function DateKey(m: BlogMeta, parse: string -> Option<int>): (k: Option<int>)
    ensures k.Some? ==> k.value != 0 && m.date.Some? && parse(m.date.value) == k
    ensures m.date.Some? && m.date.value != "" && parse(m.date.value).Some? && parse(m.date.value).value != 0
      ==> k == parse(m.date.value)
  {
    if m.date.Some? && m.date.value != "" && parse(m.date.value).Some? && parse(m.date.value).value != 0
    then parse(m.date.value) else None
  }

  predicate IsDated(m: BlogMeta, parse: string -> Option<int>) {
    DateKey(m, parse).Some?
  }

  predicate AllDated(posts: seq<BlogMeta>, parse: string -> Option<int>) {
    forall i :: 0 <= i < |posts| ==> IsDated(posts[i], parse)
  }

  predicate NoneDated(posts: seq<BlogMeta>, parse: string -> Option<int>) {
    forall i :: 0 <= i < |posts| ==> !IsDated(posts[i], parse)
  }

  /** Whether the posts are all dated, or all undated, does not depend on
      their order. */
  lemma DatednessOfPermutation(a: seq<BlogMeta>, b: seq<BlogMeta>, parse: string -> Option<int>)
    requires multiset(a) == multiset(b)
    ensures AllDated(a, parse) <==> AllDated(b, parse)
    ensures NoneDated(a, parse) <==> NoneDated(b, parse)
  {
    assert forall i :: 0 <= i < |a| ==> a[i] in multiset(b);
    assert forall i :: 0 <= i < |b| ==> b[i] in multiset(a);
  }

  /** The comparator of `getAllBlogPostsMetadata` is negative: when both
      posts are dated on different instants the later one goes first,
      otherwise the titles decide. */
  predicate ComesBefore(parse: string -> Option<int>, a: BlogMeta, b: BlogMeta) {
    var ka, kb := DateKey(a, parse), DateKey(b, parse);
    if ka.Some? && kb.Some? && ka.value != kb.value then kb.value - ka.value < 0
    else LexLess(a.title, b.title)
  }

  function Comparator(parse: string -> Option<int>): (BlogMeta, BlogMeta) -> bool {
    (a, b) => ComesBefore(parse, a, b)
  }

  /** Non-increasing by date, equal dates in title order. */
  predicate NewestFirst(posts: seq<BlogMeta>, parse: string -> Option<int>) {
    && AllDated(posts, parse)
    && forall i, j :: 0 <= i < j < |posts| ==>
         && DateKey(posts[i], parse).value >= DateKey(posts[j], parse).value
         && (DateKey(posts[i], parse) == DateKey(posts[j], parse) ==> !LexLess(posts[j].title, posts[i].title))
  }

  function TitleOf(m: BlogMeta): string {
    m.title
  }

  lemma DatedComparatorConsistent(posts: seq<BlogMeta>, parse: string -> Option<int>)
    requires AllDated(posts, parse)
    ensures Lists.StrictWeakOn(Comparator(parse), posts)
  {
    var lt := Comparator(parse);
    forall a, b | a in posts && b in posts && lt(a, b) ensures !lt(b, a) {
      if DateKey(a, parse) == DateKey(b, parse) {
        LexLessAsymmetric(a.title, b.title);
      }
    }
    forall a, b, c | a in posts && b in posts && c in posts && !lt(a, b) && !lt(b, c) ensures !lt(a, c) {
      var ka, kb, kc := DateKey(a, parse).value, DateKey(b, parse).value, DateKey(c, parse).value;
      if ka == kb && kb == kc {
        LexNotLessTransitive(c.title, b.title, a.title);
      }
    }
  }

  lemma UndatedComparatorConsistent(posts: seq<BlogMeta>, parse: string -> Option<int>)
    requires NoneDated(posts, parse)
    ensures Lists.StrictWeakOn(Comparator(parse), posts)
  {
    forall a, b | a in posts && b in posts && LexLess(a.title, b.title) ensures !LexLess(b.title, a.title) {
      LexLessAsymmetric(a.title, b.title);
    }
    forall a, b, c | a in posts && b in posts && c in posts && !LexLess(a.title, b.title) && !LexLess(b.title, c.title)
      ensures !LexLess(a.title, c.title)
    {
      LexNotLessTransitive(c.title, b.title, a.title);
    }
  }

  /** `posts.sort(comparator)`: when every post is dated the result is newest
      first with ties in title order; when none is, it is in title order. A
      mix of dated and undated posts makes the comparator inconsistent (see
      MixedDatesCycle), and nothing is promised about the order then. */
  function SortPosts(posts: seq<BlogMeta>, parse: string -> Option<int>): (r: seq<BlogMeta>)
    ensures multiset(r) == multiset(posts)
    ensures AllDated(posts, parse) ==> NewestFirst(r, parse)
    ensures NoneDated(posts, parse) ==> Ordering.TitleOrdered(r, TitleOf)
  {
    var r := Lists.SortBy(posts, Comparator(parse));
    DatednessOfPermutation(posts, r, parse);
    if AllDated(posts, parse) then
      DatedComparatorConsistent(posts, parse);
      Lists.SortBySorted(posts, Comparator(parse));
      r
    else if NoneDated(posts, parse) then
      UndatedComparatorConsistent(posts, parse);
      Lists.SortBySorted(posts, Comparator(parse));
      r
    else
      r
  }

  /** A date parser that knows two dates: the years 2021 and 2020. */
  function TwoYears(d: string): Option<int> {
    if d == "2021" then Some(2021) else if d == "2020" then Some(2020) else None
  }

  /** Three posts on which the comparator goes round in a circle: 2021 "c"
      before 2020 "a" (dates), "a" before the undated "b" (titles), and "b"
      before "c" (titles). */
  lemma MixedDatesCycle()
    ensures var a := BlogMeta("a", "c", None, Some("2021"), []);
            var b := BlogMeta("b", "b", None, None, []);
            var c := BlogMeta("c", "a", None, Some("2020"), []);
            && ComesBefore(TwoYears, a, c) && ComesBefore(TwoYears, c, b) && ComesBefore(TwoYears, b, a)
            && !Lists.StrictWeakOn(Comparator(TwoYears), [a, b, c])
  {
    var a := BlogMeta("a", "c", None, Some("2021"), []);
    var b := BlogMeta("b", "b", None, None, []);
    var c := BlogMeta("c", "a", None, Some("2020"), []);
    var lt := Comparator(TwoYears);
    assert LexLess("a", "b") && LexLess("b", "c") && !LexLess("c", "b") && !LexLess("b", "a");
    assert DateKey(a, TwoYears) == Some(2021) && DateKey(c, TwoYears) == Some(2020) && DateKey(b, TwoYears) == None;
    assert a in [a, b, c] && b in [a, b, c] && c in [a, b, c];
    assert !lt(a, b) && !lt(b, c) && lt(a, c);
  }

  /** `getAllBlogPostsMetadata()`: the listing is read without a `catch`, so
      a missing directory is an error like any other. */
  function GetAllBlogPostsMetadata(listing: Result<seq<string>>, read: string -> Result<Document>, parse: string -> Option<int>)
    : (r: Result<seq<BlogMeta>>)
    ensures listing.Err? ==> r == Err(listing.error)
    ensures listing.Ok? ==> (r.Ok? <==> forall f :: f in MdxFiles(listing.value) ==> read(f).Ok?)
    ensures r.Ok? ==> listing.Ok? && multiset(r.value) == multiset(ReadAll(MdxFiles(listing.value), read, NormalizeMeta).value)
    ensures r.Ok? && AllDated(r.value, parse) ==> NewestFirst(r.value, parse)
    ensures r.Ok? && NoneDated(r.value, parse) ==> Ordering.TitleOrdered(r.value, TitleOf)
  {
    match listing
    case Err(e) => Err(e)
    case Ok(entries) =>
      var files := MdxFiles(entries);
      assert (forall f :: f in files ==> read(f).Ok?) <==> (forall i :: 0 <= i < |files| ==> read(files[i]).Ok?);
      match ReadAll(files, read, NormalizeMeta)
      case Err(e) => Err(e)
      case Ok(posts) =>
        var sorted := SortPosts(posts, parse);
        DatednessOfPermutation(posts, sorted, parse);
        Ok(sorted)
  }

  /** `getBlogPostBySlug(slug)`: the file named after the requested slug,
      normalised with that slug, or `null` when it does not exist. */
  function GetBlogPostBySlug(slug: string, read: string -> Result<Document>): (r: Result<Option<LoadedBlogPost>>)
    ensures read(slug + ".mdx") == Err(NotFound) <==> r == Ok(None)
    ensures read(slug + ".mdx") == Err(OtherError) <==> r == Err(OtherError)
    ensures read(slug + ".mdx").Ok? ==>
      var doc := read(slug + ".mdx").value;
      r == Ok(Some(LoadedBlogPost(NormalizeMeta(slug, doc.data), doc.content)))
  {
    match ReadBySlug(slug, read)
    case Err(e) => Err(e)
    case Ok(None) => Ok(None)
    case Ok(Some(doc)) => Ok(Some(LoadedBlogPost(NormalizeMeta(slug, doc.data), doc.content)))
  }
}
