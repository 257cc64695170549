/** The page accessor (lib/mdx.ts): metadata normalisation, the listing of
    `.mdx` pages in menu order, and loading one page by slug. */
module Pages {
  import opened Wrappers
  import opened FrontMatter
  import Lists

  /** `links` keeps whatever array the front matter holds. */
  datatype PageMeta = PageMeta(
    slug: string,
    title: string,
    order: int,
    tags: seq<string>,
    description: Option<string>,
    links: seq<Value>)

  datatype LoadedPage = LoadedPage(meta: PageMeta, content: string)

  /** `normalizeMeta(slug, data)` */
  function NormalizeMeta(slug: string, data: Fields): (m: PageMeta)
    ensures !NonNullish(data, "slug") ==> m.slug == slug
    ensures "slug" in data && data["slug"].Str? ==> m.slug == data["slug"].text
    ensures !NonNullish(data, "title") ==> m.title == slug
    ensures "title" in data && data["title"].Str? ==> m.title == data["title"].text
    ensures "order" in data && data["order"].Num? ==> m.order == data["order"].number
    ensures !("order" in data && data["order"].Num?) ==> m.order == 0
    ensures !("tags" in data && data["tags"].Arr?) ==> m.tags == []
    ensures "tags" in data && data["tags"].Arr? ==>
      |m.tags| == |data["tags"].items| && forall i :: 0 <= i < |m.tags| ==> m.tags[i] == ItemText(data["tags"].items[i])
    ensures m.description.Some? <==> "description" in data && data["description"].Str?
    ensures m.description.Some? ==> m.description.value == data["description"].text
    ensures "links" in data && data["links"].Arr? ==> m.links == data["links"].items
    ensures !("links" in data && data["links"].Arr?) ==> m.links == []
  {
    PageMeta(
      StringOr(data, "slug", slug),
      StringOr(data, "title", slug),
      if "order" in data && data["order"].Num? then data["order"].number else 0,
      StringsOr(data, "tags"),
      StringIfString(data, "description"),
      ArrayOr(data, "links"))
  }

  /** Front matter that spells out every field of `m`. */
  function MetaFields(m: PageMeta): Fields {
    map["slug" := Str(m.slug), "title" := Str(m.title), "order" := Num(m.order),
        "tags" := Arr(StrValues(m.tags)), "links" := Arr(m.links)]
    + (if m.description.Some? then map["description" := Str(m.description.value)] else map[])
  }

  /** Normalisation keeps what well-typed front matter says, whatever the
      file is called. */
  lemma NormalizeMetaRoundTrip(m: PageMeta, fileSlug: string)
    ensures NormalizeMeta(fileSlug, MetaFields(m)) == m
  {
    StringsOrOfStrings(MetaFields(m), "tags", m.tags);
  }

  /** `(a, b) => a.order - b.order` is negative. */
  function ByOrder(): (PageMeta, PageMeta) -> bool {
    (a: PageMeta, b: PageMeta) => a.order < b.order
  }

  /** Pages whose `order` is `k`. */
  function HasOrder(k: int): PageMeta -> bool {
    (p: PageMeta) => p.order == k
  }

  /** `pages.sort(...)`: a permutation in non-decreasing `order`, pages of
      equal `order` left in listing order. */
  function SortPages(pages: seq<PageMeta>): (r: seq<PageMeta>)
    ensures multiset(r) == multiset(pages)
    ensures forall i, j :: 0 <= i < j < |r| ==> r[i].order <= r[j].order
    ensures forall k :: Lists.Filter(r, HasOrder(k)) == Lists.Filter(pages, HasOrder(k))
  {
    var r := Lists.SortBy(pages, ByOrder());
    Lists.SortBySorted(pages, ByOrder());
    forall k ensures Lists.Filter(r, HasOrder(k)) == Lists.Filter(pages, HasOrder(k)) {
      Lists.SortByKeepsClassOrder(pages, ByOrder(), HasOrder(k));
    }
    r
  }

  /** `getAllPageMetadata()`: the listing is read without a `catch`, so a
      missing directory is an error like any other. */
  function GetAllPageMetadata(listing: Result<seq<string>>, read: string -> Result<Document>): (r: Result<seq<PageMeta>>)
    ensures listing.Err? ==> r == Err(listing.error)
    ensures listing.Ok? ==> (r.Ok? <==> forall f :: f in MdxFiles(listing.value) ==> read(f).Ok?)
    ensures r.Ok? ==> listing.Ok? && multiset(r.value) == multiset(ReadAll(MdxFiles(listing.value), read, NormalizeMeta).value)
    ensures r.Ok? ==> forall i, j :: 0 <= i < j < |r.value| ==> r.value[i].order <= r.value[j].order
  {
    match listing
    case Err(e) => Err(e)
    case Ok(entries) =>
      var files := MdxFiles(entries);
      assert (forall f :: f in files ==> read(f).Ok?) <==> (forall i :: 0 <= i < |files| ==> read(files[i]).Ok?);
      match ReadAll(files, read, NormalizeMeta)
      case Err(e) => Err(e)
      case Ok(pages) => Ok(SortPages(pages))
  }

  /** `getPageBySlug(slug)`: the file named after the requested slug,
      normalised with that slug, or `null` when it does not exist. */
  function GetPageBySlug(slug: string, read: string -> Result<Document>): (r: Result<Option<LoadedPage>>)
    ensures read(slug + ".mdx") == Err(NotFound) <==> r == Ok(None)
    ensures read(slug + ".mdx") == Err(OtherError) <==> r == Err(OtherError)
    ensures read(slug + ".mdx").Ok? ==>
      var doc := read(slug + ".mdx").value;
      r == Ok(Some(LoadedPage(NormalizeMeta(slug, doc.data), doc.content)))
  {
    match ReadBySlug(slug, read)
    case Err(e) => Err(e)
    case Ok(None) => Ok(None)
    case Ok(Some(doc)) => Ok(Some(LoadedPage(NormalizeMeta(slug, doc.data), doc.content)))
  }
}
