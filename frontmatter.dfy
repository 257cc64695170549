/** What the content loaders share: the values gray-matter hands back for a
    file's front matter, the file-system outcomes they distinguish (ENOENT
    against every other error), and the steps every loader repeats — the
    `.mdx` filter, slug derivation, reading every listed file, and the
    defaulting expressions of the `normalizeMeta` functions. */
module FrontMatter {
  import opened Wrappers
  import opened Text
  import Lists

  /** A value of the parsed YAML front matter. Booleans, dates and objects
      are `Other`, carried with the text `String(v)` gives them. */
  datatype Value =
    | Str(text: string)
    | Num(number: int)
    | Arr(items: seq<Value>)
    | Null
    | Other(shown: string)

  /** `data` as gray-matter returns it: a key is absent when the front matter
      does not mention it. */
  type Fields = map<string, Value>

  /** ENOENT, or any other error of the file system. */
  datatype IoError = NotFound | OtherError

  /** A resolved promise, or a rejected one. */
  datatype Result<T> = Ok(value: T) | Err(error: IoError)

  /** One file after `matter(source)`: its front matter and its body. */
  datatype Document = Document(data: Fields, content: string)

  function DigitChar(d: nat): char
    requires d < 10
  {
    ('0' as int + d) as char
  }

  function NatToString(n: nat): string
    decreases n
  {
    if n < 10 then [DigitChar(n)] else NatToString(n / 10) + [DigitChar(n % 10)]
  }

  /** `String(v)`; inside an array `null` prints as nothing. */
  function Stringify(v: Value): string
    decreases v
  {
    match v
    case Str(s) => s
    case Num(n) => if n < 0 then "-" + NatToString(-n) else NatToString(n)
    case Null => "null"
    case Other(shown) => shown
    case Arr(xs) =>
      Join(seq(|xs|, i requires 0 <= i < |xs| => if xs[i].Null? then [] else Stringify(xs[i])), ",")
  }

  /** `data[key]` is set to something other than `null` or `undefined`. */
  predicate NonNullish(data: Fields, key: string) {
    key in data && !data[key].Null?
  }

  /** `(data[key] as string) ?? fallback`: the cast converts nothing, so any
      non-nullish value is kept (as its `String` text here). */
  function StringOr(data: Fields, key: string, fallback: string): (r: string)
    ensures !NonNullish(data, key) ==> r == fallback
    ensures key in data && data[key].Str? ==> r == data[key].text
  {
    if NonNullish(data, key) then Stringify(data[key]) else fallback
  }

  /** `typeof data[key] === "string" ? data[key] : undefined` */
  function StringIfString(data: Fields, key: string): (r: Option<string>)
    ensures r.Some? <==> key in data && data[key].Str?
    ensures r.Some? ==> r.value == data[key].text
  {
    if key in data && data[key].Str? then Some(data[key].text) else None
  }

  /** `Array.isArray(data[key]) ? data[key] : []` */
  function ArrayOr(data: Fields, key: string): (r: seq<Value>)
    ensures key in data && data[key].Arr? ==> r == data[key].items
    ensures !(key in data && data[key].Arr?) ==> r == []
  {
    if key in data && data[key].Arr? then data[key].items else []
  }

  /** An array element as `join` writes it: `null` as nothing, anything
      else as its `String` text. */
  function ItemText(v: Value): string {
    if v.Null? then [] else Stringify(v)
  }

  /** `Array.isArray(data[key]) ? (data[key] as string[]) : []`, each element
      as the text `join` gives it. */
  function StringsOr(data: Fields, key: string): (r: seq<string>)
    ensures |r| == |ArrayOr(data, key)|
    ensures forall i :: 0 <= i < |r| ==> r[i] == ItemText(ArrayOr(data, key)[i])
    ensures forall i :: 0 <= i < |r| && ArrayOr(data, key)[i].Null? ==> r[i] == []
  {
    var xs := ArrayOr(data, key);
    seq(|xs|, i requires 0 <= i < |xs| => ItemText(xs[i]))
  }

  /** The front-matter encoding of a list of strings. */
  function StrValues(ss: seq<string>): (r: seq<Value>)
    ensures |r| == |ss|
  {
    seq(|ss|, i requires 0 <= i < |ss| => Str(ss[i]))
  }

  lemma StringsOrOfStrings(data: Fields, key: string, ss: seq<string>)
    requires key in data && data[key] == Arr(StrValues(ss))
    ensures StringsOr(data, key) == ss
  {
  }

  /** `file.endsWith(".mdx")` */
  predicate IsMdx(file: string) {
    EndsWith(file, ".mdx")
  }

  /** `entries.filter((file) => file.endsWith(".mdx"))` */
  function MdxFiles(entries: seq<string>): (r: seq<string>)
    ensures forall f :: f in r <==> f in entries && IsMdx(f)
  {
    Lists.FilterMembers(entries, IsMdx);
    Lists.Filter(entries, IsMdx)
  }

  /** `file.replace(/\.mdx$/, "")` */
  function StripMdx(file: string): (r: string)
    ensures IsMdx(file) ==> r + ".mdx" == file
    ensures !IsMdx(file) ==> r == file
  {
    if IsMdx(file) then file[..|file| - 4] else file
  }

  /** Reading and normalising every listed file at once, as
      `Promise.all(files.map(...))` does: the result holds one record per
      file, in listing order, or the error of some read that failed.
      `Promise.all` rejects with whichever failure settles first, which
      depends on I/O timing; this model takes the first failing read in
      listing order. */
  function ReadAll<M>(files: seq<string>, read: string -> Result<Document>, normalize: (string, Fields) -> M): (r: Result<seq<M>>)
    ensures r.Ok? <==> forall i :: 0 <= i < |files| ==> read(files[i]).Ok?
    ensures r.Ok? ==> |r.value| == |files|
    ensures r.Ok? ==> forall i :: 0 <= i < |files| ==> r.value[i] == normalize(StripMdx(files[i]), read(files[i]).value.data)
    ensures r.Err? ==> exists i :: 0 <= i < |files| && read(files[i]) == Err(r.error)
  {
    if files == [] then Ok([])
    else
      match read(files[0])
      case Err(e) => Err(e)
      case Ok(doc) =>
        match ReadAll(files[1..], read, normalize)
        case Err(e) =>
          assert forall i :: 0 <= i < |files[1..]| ==> files[1..][i] == files[i + 1];
          Err(e)
        case Ok(rest) =>
          assert forall i :: 1 <= i < |files| ==> files[i] == files[1..][i - 1];
          Ok([normalize(StripMdx(files[0]), doc.data)] + rest)
  }

  /** The `try { readFile; matter } catch` of every `get...BySlug`: the file
      `slug + ".mdx"`, `null` when it does not exist, and any other error
      rethrown. */
  function ReadBySlug(slug: string, read: string -> Result<Document>): (r: Result<Option<Document>>)
    ensures read(slug + ".mdx").Ok? ==> r == Ok(Some(read(slug + ".mdx").value))
    ensures read(slug + ".mdx") == Err(NotFound) <==> r == Ok(None)
    ensures read(slug + ".mdx") == Err(OtherError) <==> r == Err(OtherError)
  {
    match read(slug + ".mdx")
    case Ok(doc) => Ok(Some(doc))
    case Err(NotFound) => Ok(None)
    case Err(OtherError) => Err(OtherError)
  }
}
