/** The link filter of the sidebar (app/components/layout/sidebar.tsx):
    the fixed navigation links whose label contains the typed query,
    ignoring case, in their fixed order. */
module Sidebar {
  import opened Text
  import Lists

  /** A navigation entry; `caption` is the label the link shows. */
  datatype NavLink = NavLink(caption: string, href: string)

  const NavLinks: seq<NavLink> := [
    NavLink("Overview", "/overview"),
    NavLink("Services", "/services"),
    NavLink("Case Studies", "/case-studies"),
    NavLink("Blog", "/blog"),
    NavLink("Resources", "/resources"),
    NavLink("Testimonials", "/testimonials"),
    NavLink("Contact", "/contact")
  ]

  /** `item.label.toLowerCase().includes(normalized)` */
  function LabelMatches(normalized: string): NavLink -> bool {
    (item: NavLink) => Contains(ToLower(item.caption), normalized)
  }

  /** `filteredLinks`: every link for a blank query, otherwise the links
      whose label matches, in their original order. */
  function FilteredLinks(query: string): (r: seq<NavLink>)
    ensures AllSpace(query) ==> r == NavLinks
    ensures !AllSpace(query) ==> forall l :: l in r <==> l in NavLinks && Contains(ToLower(l.caption), NormalizeQuery(query))
    ensures Lists.IsSubsequence(r, NavLinks)
  {
    var normalized := NormalizeQuery(query);
    NormalizeQueryEmpty(query);
    if normalized == [] then
      Lists.FilterKeepsAll(NavLinks, (l: NavLink) => true);
      Lists.FilterIsSubsequence(NavLinks, (l: NavLink) => true);
      NavLinks
    else
      Lists.FilterIsSubsequence(NavLinks, LabelMatches(normalized));
      Lists.FilterMembers(NavLinks, LabelMatches(normalized));
      Lists.Filter(NavLinks, LabelMatches(normalized))
  }

  /** "No results" is shown exactly when no link is left, which can only
      happen for a query that is not blank. */
  predicate ShowsNoResults(query: string) {
    FilteredLinks(query) == []
  }

  lemma ShowsNoResultsWhen(query: string)
    ensures ShowsNoResults(query) <==>
      !AllSpace(query) && forall l :: l in NavLinks ==> !Contains(ToLower(l.caption), NormalizeQuery(query))
  {
    var r := FilteredLinks(query);
    if !AllSpace(query) && r != [] {
      assert r[0] in r;
    }
  }

  /** Typing in a different case finds the same links. */
  lemma FilteredLinksIgnoresCase(query: string)
    ensures FilteredLinks(ToLower(query)) == FilteredLinks(query)
  {
    NormalizeQueryCase(query);
    NormalizeQueryEmpty(query);
    NormalizeQueryEmpty(ToLower(query));
  }
}
