/** The global search dialog (app/components/layout/search-modal.tsx): the
    pages whose title, description and tags contain the typed query,
    ignoring case, and the dialog's state: the query, whether it is open,
    and the routes it has navigated to. */
module SearchModal {
  import opened Wrappers
  import opened Text
  import Lists
  import Pages
  import FrontMatter

  /** `[title, description ?? "", tags.join(" ")].join(" ").toLowerCase()` */
  function Haystack(page: Pages.PageMeta): string {
    ToLower(Join([page.title, page.description.GetOr([]), Join(page.tags, " ")], " "))
  }

  lemma HaystackSpelled(page: Pages.PageMeta)
    ensures var t, d, g := page.title, page.description.GetOr([]), Join(page.tags, " ");
      Haystack(page) == ToLower(t) + " " + ToLower(d) + " " + ToLower(g)
  {
    var t, d, g := page.title, page.description.GetOr([]), Join(page.tags, " ");
    assert [t, d, g][1..] == [d, g] && [d, g][1..] == [g];
    assert Join([g], " ") == g;
    assert Join([d, g], " ") == d + " " + g;
    assert Join([t, d, g], " ") == t + " " + (d + " " + g);
    ToLowerAppend(t, " " + (d + " " + g));
    ToLowerAppend(" ", d + " " + g);
    ToLowerAppend(d, " " + g);
    ToLowerAppend(" ", g);
    assert ToLower(" ") == " ";
  }

  /** The parts a query is looked for in, each lower-cased. */
  lemma HaystackParts(page: Pages.PageMeta)
    ensures Contains(Haystack(page), ToLower(page.title))
    ensures page.description.Some? ==> Contains(Haystack(page), ToLower(page.description.value))
    ensures Contains(Haystack(page), ToLower(Join(page.tags, " ")))
  {
    var t, d, g := ToLower(page.title), ToLower(page.description.GetOr([])), ToLower(Join(page.tags, " "));
    HaystackSpelled(page);
    ContainsMiddle([], t, " " + d + " " + g);
    assert [] + t + (" " + d + " " + g) == Haystack(page);
    ContainsMiddle(t + " ", d, " " + g);
    assert t + " " + d + (" " + g) == Haystack(page);
    ContainsMiddle(t + " " + d + " ", g, []);
    assert t + " " + d + " " + g + [] == Haystack(page);
  }

  function Matches(normalized: string): Pages.PageMeta -> bool {
    (page: Pages.PageMeta) => Contains(Haystack(page), normalized)
  }

  /** `filteredPages`: every page for a blank query, otherwise the matching
      pages, in their original order. */
  function FilteredPages(pages: seq<Pages.PageMeta>, query: string): (r: seq<Pages.PageMeta>)
    ensures AllSpace(query) ==> r == pages
    ensures !AllSpace(query) ==> forall p :: p in r <==> p in pages && Contains(Haystack(p), NormalizeQuery(query))
    ensures Lists.IsSubsequence(r, pages)
  {
    var normalized := NormalizeQuery(query);
    NormalizeQueryEmpty(query);
    if normalized == [] then
      Lists.FilterKeepsAll(pages, (p: Pages.PageMeta) => true);
      Lists.FilterIsSubsequence(pages, (p: Pages.PageMeta) => true);
      pages
    else
      Lists.FilterIsSubsequence(pages, Matches(normalized));
      Lists.FilterMembers(pages, Matches(normalized));
      Lists.Filter(pages, Matches(normalized))
  }

  /** A page whose title contains the query, in any case, is found. */
  lemma TitleMatchFound(pages: seq<Pages.PageMeta>, query: string, page: Pages.PageMeta)
    requires page in pages && Contains(ToLower(page.title), NormalizeQuery(query))
    ensures page in FilteredPages(pages, query)
  {
    HaystackParts(page);
    ToLowerIdempotent(page.title);
    ContainsTransitive(Haystack(page), ToLower(page.title), NormalizeQuery(query));
  }

  /** Enter with a blank query, when no result list is shown, still goes to
      the first page. */
  lemma EnterWithBlankQuery(pages: seq<Pages.PageMeta>, query: string)
    requires AllSpace(query) && pages != []
    ensures FilteredPages(pages, query) != [] && FilteredPages(pages, query)[0] == pages[0]
  {
  }

  /** The page of `a.mdx` whose front matter is `title: a` and a tag list
      holding one `null`. */
  function NullTagPage(): Pages.PageMeta {
    Pages.NormalizeMeta("a", map["title" := FrontMatter.Str("a"), "tags" := FrontMatter.Arr([FrontMatter.Null])])
  }

  lemma NullTagHaystack()
    ensures NullTagPage().tags == [[]] && Haystack(NullTagPage()) == "a  "
  {
    var page := NullTagPage();
    assert page.tags == [[]] && page.title == "a" && page.description == None;
    HaystackSpelled(page);
    assert Join(page.tags, " ") == [];
    assert ToLower("a") == "a" && ToLower(" ") == " ";
  }

  /** The query typed: the text `String(null)` would give. */
  const NullQuery := "null"

  lemma NullQueryLength()
    ensures |NormalizeQuery(NullQuery)| == 4 && !AllSpace(NullQuery)
  {
    var q := NullQuery;
    assert q[0] == 'n' && q[3] == 'l';
    UnpaddedQueryLength(q);
  }

  /** A query with no whitespace at its ends keeps its length. */
  lemma UnpaddedQueryLength(q: string)
    requires q != [] && !IsSpace(q[0]) && !IsSpace(q[|q| - 1])
    ensures |NormalizeQuery(q)| == |q| && !AllSpace(q)
  {
    TrimUnchanged(q);
  }

  /** A `null` tag joins as nothing, so the query "null" does not find its
      page. */
  lemma NullTagNotMatched()
    ensures NullTagPage().tags == [[]] && FilteredPages([NullTagPage()], NullQuery) == []
  {
    var page := NullTagPage();
    NullTagHaystack();
    NullQueryLength();
    var q := NormalizeQuery(NullQuery);
    assert !Contains(Haystack(page), q);
    var r := FilteredPages([page], NullQuery);
    assert page !in r;
  }

  class SearchModal {
    /** The `pages` prop. */
    const pages: seq<Pages.PageMeta>
    /** The `query` state. */
    var query: string
    /** The `open` prop, which `onClose` clears in the parent. */
    var open: bool
    /** The routes `router.push` has been given. */
    var history: seq<string>

    constructor(pages: seq<Pages.PageMeta>)
      ensures this.pages == pages && query == [] && !open && history == []
    {
      this.pages := pages;
      query := [];
      open := false;
      history := [];
    }

    /** The results listed: none until a query that is not blank is typed. */
    function Results(): (r: seq<Pages.PageMeta>)
      reads this
      ensures !open || AllSpace(query) ==> r == []
      ensures open && !AllSpace(query) ==> r == FilteredPages(pages, query)
    {
      if open && !AllSpace(query) then FilteredPages(pages, query) else []
    }

    /** The "No results" line. */
    predicate ShowsNoResults()
      reads this
    {
      open && !AllSpace(query) && FilteredPages(pages, query) == []
    }

    /** The parent opens the dialog; the effect on `open` clears the query. */
    method Open()
      modifies this
      ensures open && query == [] && history == old(history)
    {
      open := true;
      query := [];
    }

    /** `onChange`: the input's value becomes the query. The input is only
        rendered while the dialog is open. */
    method Type(text: string)
      requires open
      modifies this
      ensures query == text && open == old(open) && history == old(history)
    {
      query := text;
    }

    /** `handleSelect(slug)`: navigate to `/slug`, then close. Its callers,
        the result buttons and the input's Enter key, exist only while the
        dialog is open. */
    method Select(slug: string)
      requires open
      modifies this
      ensures history == old(history) + ["/" + slug] && !open && query == old(query)
    {
      history := history + ["/" + slug];
      open := false;
    }

    /** Enter in the open dialog's input selects the first filtered page
        whenever there is one, whether or not the results are shown. */
    method PressEnter()
      requires open
      modifies this
      ensures query == old(query)
      ensures var f := FilteredPages(pages, old(query));
        f != [] ==> history == old(history) + ["/" + f[0].slug] && !open
      ensures FilteredPages(pages, old(query)) == [] ==> history == old(history) && open == old(open)
    {
      var f := FilteredPages(pages, query);
      if |f| > 0 {
        Select(f[0].slug);
      }
    }

    /** Escape closes the dialog; the listener exists only while it is open. */
    method PressEscape()
      modifies this
      ensures !open && query == old(query) && history == old(history)
    {
      if open {
        open := false;
      }
    }
  }
}
