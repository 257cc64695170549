/** The project accessor (lib/projects.ts): metadata normalisation, the
    listing of `.mdx` projects in title order, and loading one project by
    slug. Unlike the page and blog listings, the project listing turns a
    missing directory or file into an empty list. */
module Projects {
  import opened Wrappers
  import opened FrontMatter
  import Lists
  import Ordering

  /** `links` keeps whatever array the front matter holds. */
  datatype ProjectMeta = ProjectMeta(
    slug: string,
    title: string,
    description: Option<string>,
    tags: seq<string>,
    links: seq<Value>)

  datatype LoadedProject = LoadedProject(meta: ProjectMeta, content: string)

  /** `normalizeMeta(slug, data)` */
  function NormalizeMeta(slug: string, data: Fields): (m: ProjectMeta)
    ensures !NonNullish(data, "slug") ==> m.slug == slug
    ensures "slug" in data && data["slug"].Str? ==> m.slug == data["slug"].text
    ensures !NonNullish(data, "title") ==> m.title == slug
    ensures "title" in data && data["title"].Str? ==> m.title == data["title"].text
    ensures m.description.Some? <==> "description" in data && data["description"].Str?
    ensures m.description.Some? ==> m.description.value == data["description"].text
    ensures !("tags" in data && data["tags"].Arr?) ==> m.tags == []
    ensures "tags" in data && data["tags"].Arr? ==>
      |m.tags| == |data["tags"].items| && forall i :: 0 <= i < |m.tags| ==> m.tags[i] == ItemText(data["tags"].items[i])
    ensures "links" in data && data["links"].Arr? ==> m.links == data["links"].items
    ensures !("links" in data && data["links"].Arr?) ==> m.links == []
  {
    ProjectMeta(
      StringOr(data, "slug", slug),
      StringOr(data, "title", slug),
      StringIfString(data, "description"),
      StringsOr(data, "tags"),
      ArrayOr(data, "links"))
  }

  /** Front matter that spells out every field of `m`. */
  function MetaFields(m: ProjectMeta): Fields {
    map["slug" := Str(m.slug), "title" := Str(m.title), "tags" := Arr(StrValues(m.tags)), "links" := Arr(m.links)]
    + (if m.description.Some? then map["description" := Str(m.description.value)] else map[])
  }

  /** Normalisation keeps what well-typed front matter says, whatever the
      file is called. */
  lemma NormalizeMetaRoundTrip(m: ProjectMeta, fileSlug: string)
    ensures NormalizeMeta(fileSlug, MetaFields(m)) == m
  {
    StringsOrOfStrings(MetaFields(m), "tags", m.tags);
  }

  predicate AllReadable(files: seq<string>, read: string -> Result<Document>) {
    forall f :: f in files ==> read(f).Ok?
  }

  predicate NoneMissing(files: seq<string>, read: string -> Result<Document>) {
    forall f :: f in files ==> read(f) != Err(NotFound)
  }

  function TitleOf(m: ProjectMeta): string {
    m.title
  }

  /** `getAllProjectMetadata()`: ENOENT from the listing or from any read
      gives the empty list, every other error is rethrown, and otherwise
      the projects come in title order. */
  function GetAllProjectMetadata(listing: Result<seq<string>>, read: string -> Result<Document>): (r: Result<seq<ProjectMeta>>)
    ensures listing == Err(NotFound) ==> r == Ok([])
    ensures listing == Err(OtherError) ==> r == Err(OtherError)
    ensures r.Err? ==> r.error == OtherError
    ensures r.Ok? ==> Ordering.TitleOrdered(r.value, TitleOf)
    ensures listing.Ok? && AllReadable(MdxFiles(listing.value), read) ==>
      var projects := ReadAll(MdxFiles(listing.value), read, NormalizeMeta).value;
      && r.Ok?
      && multiset(r.value) == multiset(projects)
      && forall t :: Lists.Filter(r.value, Ordering.HasTitle(TitleOf, t)) == Lists.Filter(projects, Ordering.HasTitle(TitleOf, t))
    ensures listing.Ok? && NoneMissing(MdxFiles(listing.value), read) && !AllReadable(MdxFiles(listing.value), read) ==>
      r == Err(OtherError)
  {
    match listing
    case Err(NotFound) => Ok([])
    case Err(OtherError) => Err(OtherError)
    case Ok(entries) =>
      var files := MdxFiles(entries);
      assert (forall f :: f in files ==> read(f).Ok?) <==> (forall i :: 0 <= i < |files| ==> read(files[i]).Ok?);
      match ReadAll(files, read, NormalizeMeta)
      case Err(NotFound) => Ok([])
      case Err(OtherError) => Err(OtherError)
      case Ok(projects) => Ok(Ordering.SortByTitle(projects, TitleOf))
  }

  /** `getProjectBySlug(slug)`: the file named after the requested slug,
      normalised with that slug, or `null` when it does not exist. */
  function GetProjectBySlug(slug: string, read: string -> Result<Document>): (r: Result<Option<LoadedProject>>)
    ensures read(slug + ".mdx") == Err(NotFound) <==> r == Ok(None)
    ensures read(slug + ".mdx") == Err(OtherError) <==> r == Err(OtherError)
    ensures read(slug + ".mdx").Ok? ==>
      var doc := read(slug + ".mdx").value;
      r == Ok(Some(LoadedProject(NormalizeMeta(slug, doc.data), doc.content)))
  {
    match ReadBySlug(slug, read)
    case Err(e) => Err(e)
    case Ok(None) => Ok(None)
    case Ok(Some(doc)) => Ok(Some(LoadedProject(NormalizeMeta(slug, doc.data), doc.content)))
  }
}
