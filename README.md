# Portfolio site content core, in Dafny

This project models the non-visual core of a personal portfolio site built on Next.js:

- **Content loaders.** They read `.mdx` files for blog posts, pages and projects, and PDF files for notes. Each loader applies defaults to the parsed front matter and sorts the listing: posts newest first, then by title; pages by their `order` field; projects and notes by title. One entry can be loaded by slug, and a missing file counts as "no entry".
- **The RSS 2.0 feed.** It escapes text for XML and HTML and wraps values in CDATA sections. It turns post bodies into HTML paragraphs, builds one `<item>` per post and per note, and orders the items newest first.
- **The two client-side filters.** The sidebar filters its navigation links, and the global search dialog filters pages. Both match the typed query, with case ignored. The search dialog's own state is modelled too: the query, whether it is open, and where it navigates.
- **The theme provider.** It holds the chosen theme and keeps it in step with `localStorage` and with the `data-theme` attribute of the document root.

The modelled files:

- **Pure code** becomes datatypes and functions, with lemmas relating them. This covers the feed route, the four loaders and the sidebar.
- **Stateful components** become classes whose methods update the fields: the search dialog and the theme provider.
- **Values the code takes from its environment** become parameters:
  - the directory listing and file contents, as `Result` values in which ENOENT is `NotFound`;
  - gray-matter's parsed front matter, as a field map;
  - date parsing, as `parse: string -> Option<int>` (`None` for an invalid date) or `timeOf`;
  - the clock, as `now`;
  - `toUTCString`, as `utc`;
  - `encodeURIComponent`, as `encode`;
  - file modification times, as `stat`.

Modules, one per file:

- `Wrappers`: `Option`.
- `Text`: the JavaScript string primitives.
- `Lists`: `filter`, and a stable sort.
- `FrontMatter`: the shared loader steps.
- `Ordering`: the sort by title.
- `Blog`, `Pages`, `Projects`, `Notes`: the loaders.
- `RssEscape`, `RssCdata`, `RssContent`, `RssFeed`: the feed route.
- `Sidebar`, `SearchModal`, `ThemeProvider`: the components.

Where the code and its documentation disagree, the model follows the code:

- The blog and page listings read their directory without a `catch`, so a missing directory is an error, not an empty list. Only the project and note listings map ENOENT to `[]`.
- `escapeHtml` rewrites three characters (`&`, `<`, `>`). Quotes are not touched.

## Model

| member | source | states |
|---|---|---|
| FrontMatter.StringOr | lib/blog.ts:21-22 | `(data.k as string) ?? fallback`: the fallback when the key is absent or null, and the text when the value is a string |
| FrontMatter.StringIfString | lib/blog.ts:23-24 | `typeof v === "string" ? v : undefined`: present exactly when the value is a string, and then that string |
| FrontMatter.ArrayOr | lib/blog.ts:25 | `Array.isArray(v) ? v : []`: the array's items when the value is an array, otherwise empty |
| FrontMatter.StringsOr | lib/blog.ts:25 | the `tags` array has one entry per item of the front-matter array, and each entry is the text `join` gives that item: nothing for `null`, otherwise its `String` text |
| FrontMatter.StringsOrOfStrings | lib/blog.ts:25 | an array of strings comes back as exactly those strings |
| FrontMatter.MdxFiles | lib/blog.ts:30 | `entries.filter(f => f.endsWith(".mdx"))`: a file is kept exactly when it is listed and ends in `.mdx` |
| Lists.FilterMembers | lib/blog.ts:30 | `filter` keeps exactly the elements that pass |
| Lists.FilterIsSubsequence | app/components/layout/sidebar.tsx:20-24 | what `filter` keeps is in its original order |
| Lists.SortBySorted | lib/projects.ts:49 | for a comparator that is a strict weak order, the sort's result is sorted |
| Lists.SortByKeepsClassOrder | lib/mdx.ts:49 | the sort is stable: elements the comparator does not separate keep their order |
| FrontMatter.StripMdx | lib/blog.ts:34 | `file.replace(/\.mdx$/, "")`: a `.mdx` name loses exactly that suffix; any other name is unchanged |
| FrontMatter.ReadAll | lib/blog.ts:32-40 | the `Promise.all` over the listed files succeeds exactly when every read succeeds. On success there is one entry per file, normalised from that file's slug and data, in listing order. A failure carries the error of some read |
| FrontMatter.ReadBySlug | lib/blog.ts:52-67 | reads `slug.mdx`: a successful read gives its document, ENOENT gives `null` (both directions), and any other error is rethrown (both directions) |
| Blog.NormalizeMeta | lib/blog.ts:20-26 | slug and title fall back to the file slug when absent or null. Description and date are kept exactly when they are strings. Tags are the texts of the front-matter array items, one per item and in order, or empty when it is not an array |
| Blog.NormalizeMetaRoundTrip | lib/blog.ts:20-26 | front matter holding every field of a `BlogMeta` normalises back to that record, whatever the file slug |
| Blog.DateKey | lib/blog.ts:43-45 | a post has a sort date exactly when its `date` is present, non-empty and parses to a non-zero time, and that date is then the parsed time |
| Blog.DatednessOfPermutation | lib/blog.ts:42-49 | reordering posts keeps "every post dated" and "no post dated" |
| Blog.DatedComparatorConsistent | lib/blog.ts:42-49 | on posts that all carry dates, the comparator is a strict weak order: time descending, then title |
| Blog.UndatedComparatorConsistent | lib/blog.ts:48 | on posts without dates, the comparator is the title order, which is a strict weak order |
| Blog.SortPosts | lib/blog.ts:42-49 | the sort returns a permutation. With every post dated it is newest first, equal times by title. With no post dated it is by title |
| Blog.MixedDatesCycle | lib/blog.ts:42-49 | for 2021 "c", undated "b" and 2020 "a", the comparator goes round in a circle, so it is no strict weak order |
| Blog.GetAllBlogPostsMetadata | lib/blog.ts:28-50 | a listing error passes through unchanged, including ENOENT. The result is Ok exactly when every `.mdx` read succeeds. Its posts are a permutation of the normalised front matter, ordered as `SortPosts` states |
| Blog.GetBlogPostBySlug | lib/blog.ts:52-67 | ENOENT on `slug.mdx` gives `null`, and any other error is an error (both directions). A successful read gives the post, normalised under the requested slug, together with its body |
| Pages.NormalizeMeta | lib/mdx.ts:26-33 | slug and title default to the file slug. `order` is the front-matter number, or 0. Tags are the texts of the front-matter array items, one per item and in order, or empty. Links are the front-matter array, or empty. Description is kept exactly when it is a string |
| Pages.NormalizeMetaRoundTrip | lib/mdx.ts:26-33 | front matter holding every field of a `PageMeta` normalises back to that record |
| Pages.SortPages | lib/mdx.ts:49 | `sort((a, b) => a.order - b.order)` gives a permutation, non-decreasing in `order`, and pages with equal `order` keep their relative order |
| Pages.GetAllPageMetadata | lib/mdx.ts:35-50 | a listing error passes through, including ENOENT. The result is Ok exactly when every `.mdx` read succeeds. It is a permutation of the normalised pages, non-decreasing in `order` |
| Pages.GetPageBySlug | lib/mdx.ts:52-67 | ENOENT gives `null`, any other error is an error (both directions), and a successful read gives the normalised page with its body |
| Projects.NormalizeMeta | lib/projects.ts:24-32 | slug and title default to the file slug. Description is kept exactly when it is a string. Tags are the texts of the front-matter array items, one per item and in order, or empty. Links are the front-matter array, or empty |
| Projects.NormalizeMetaRoundTrip | lib/projects.ts:24-32 | front matter holding every field of a `ProjectMeta` normalises back to that record |
| Projects.GetAllProjectMetadata | lib/projects.ts:34-56 | a missing directory gives `[]`, and any other listing error is an error. Every error is a non-ENOENT one. An Ok result is in title order. With every read successful it is a permutation of the normalised projects, with equal titles in listing order. When no read hits ENOENT but some read fails, the result is an error |
| Projects.GetProjectBySlug | lib/projects.ts:58-73 | ENOENT gives `null`, any other error is an error (both directions), and a read gives the normalised project |
| Ordering.TitleLessConsistent | lib/projects.ts:49 | the title comparator is a strict weak order on any list |
| Ordering.SortByTitle | lib/projects.ts:49 | sorting by title gives a permutation in title order, and records with equal titles keep their relative order |
| Notes.CollapseRuns | lib/notes.ts:14-15 | a global replace of runs of a character class by one space: the result is empty exactly for empty input. Its first character is a space when the input starts with a character of the class, and otherwise is the input's first character |
| Notes.CollapseRunsMembers | lib/notes.ts:14-15 | the replace adds no character but spaces, and keeps no character of the class |
| Notes.CollapseRunsKeeps | lib/notes.ts:14-15 | every character outside the class survives the replace |
| Notes.CollapseRunsSingle | lib/notes.ts:14-15 | when the class includes the space, no two class characters are left next to each other |
| Notes.CollapseRunsUnchanged | lib/notes.ts:15 | a string whose class characters are single spaces, never two in a row, is left unchanged |
| Notes.Capitalize | lib/notes.ts:17 | `replace(/\b\w/g, toUpperCase)` keeps the length and the case-insensitive content. It rewrites only characters that start a word, leaves word starts where they were, upper-cases every word start, and keeps every space and separator where it was |
| Notes.CollapsedSpaced | lib/notes.ts:14-15 | after the two replaces there is no `-` or `_` left, every whitespace character is a plain space, and no two spaces are adjacent |
| Notes.SliceSpaced | lib/notes.ts:15-16 | every slice of such a string is again of that shape |
| Notes.TrimSpaced | lib/notes.ts:16 | trimming keeps that shape |
| Notes.TidySpaced | lib/notes.ts:13-16 | the text that gets capitalised holds no `-` or `_`, and its whitespace is single plain spaces |
| Notes.CapitalizeSpaced | lib/notes.ts:17 | capitalising keeps that shape |
| Notes.FormatTitleSpaced | lib/notes.ts:12-17 | a title holds no `-` or `_`, and separates its words by single plain spaces |
| Notes.FormatTitleEdges | lib/notes.ts:12-17 | a title has no whitespace at either end |
| Notes.FormatTitleWords | lib/notes.ts:12-17 | every word of a title starts with a character that is not a lower-case letter |
| Notes.FormatTitleShaped | lib/notes.ts:12-17 | `formatTitle` output holds no `-` or `_`, separates words by single spaces, has no leading or trailing whitespace, and starts every word with a character that is not a lower-case letter |
| Notes.FormatTitleEmpty | lib/notes.ts:12-17 | the title is empty exactly when the slug consists only of `-`, `_` and whitespace |
| Notes.CapitalizeUnchanged | lib/notes.ts:17 | a string whose word starts are not lower-case letters is left unchanged |
| Notes.TidyUnchanged | lib/notes.ts:13-16 | a finished title comes through both replaces and the trim unchanged |
| Notes.TitleFixed | lib/notes.ts:12-17 | a finished title is its own title |
| Notes.FormatTitleIdempotent | lib/notes.ts:12-17 | formatting a formatted title changes nothing |
| Notes.StripPdf | lib/notes.ts:26 | `file.replace(/\.pdf$/i, "")` drops exactly the last four characters of a name ending in `.pdf` in any case; any other name is unchanged |
| Notes.NoteFor | lib/notes.ts:25-32 | the note of a file keeps the file name, takes the name without `.pdf` as its slug, and takes the formatted slug as its title |
| Notes.ListedNotes | lib/notes.ts:22-32 | a note is listed exactly when its file is in the listing, ends in `.pdf` in any case, and the note is the one built from that file |
| Notes.GetAllNoteFiles | lib/notes.ts:19-40 | a missing directory gives `[]`, any other listing error is an error, and a listing always succeeds. The notes are exactly those of the PDF files, a permutation of them, in title order, with equal titles in listing order |
| RssEscape.EscapeHtmlChain | app/rss.xml/route.ts:22-26 | the chain of three global replaces of `escapeHtml` equals rewriting every character on its own, with no replace acting on the output of an earlier one |
| RssEscape.EscapeXmlChain | app/rss.xml/route.ts:14-20 | the same for the five replaces of `escapeXml`: `&` goes first, so no entity it emits is rewritten by a later replace |
| RssEscape.EscapeXmlPerChar | app/rss.xml/route.ts:14-20 | `escapeXml` is the concatenation of the per-character entity tokens |
| RssEscape.EscapeHtmlPerChar | app/rss.xml/route.ts:22-26 | `escapeHtml` is the concatenation of the per-character tokens for `&`, `<` and `>` |
| RssEscape.UnescapeEscapeXml | app/rss.xml/route.ts:14-20 | decoding the five entities, `&amp;` last, gives back the input |
| RssEscape.EscapeXmlNoMarkup | app/rss.xml/route.ts:14-20 | the output holds no `<`, `>`, `"` or `'` |
| RssEscape.EscapeXmlAmpersands | app/rss.xml/route.ts:14-20 | every `&` of the output starts one of the five entities |
| RssEscape.EscapeHtmlUnchanged | app/rss.xml/route.ts:22-26 | a string without `&`, `<` and `>` is returned unchanged, quotes included |
| RssEscape.EscapeHtmlSafe | app/rss.xml/route.ts:22-26 | the output holds no `<` or `>` |
| RssCdata.WrapCdata | app/rss.xml/route.ts:28 | the output starts with `<![CDATA[` and ends with `]]>` |
| RssCdata.WrapCdataSections | app/rss.xml/route.ts:28 | the output is a run of CDATA sections. Their bodies concatenate to exactly the input, and no body holds `]]>` |
| RssCdata.WrapCdataFree | app/rss.xml/route.ts:28 | a value without `]]>` is wrapped in one section as it is |
| RssContent.SplitBlocks | app/rss.xml/route.ts:45 | `split(/\n{2,}/)` gives at least one block. The first block is a prefix of the text, and no block holds a blank line |
| RssContent.SplitBlocksJoin | app/rss.xml/route.ts:45 | where no run of line feeds is longer than two, joining the blocks with `\n\n` gives back the text |
| RssContent.ParagraphBodyPerChar | app/rss.xml/route.ts:47-48 | escaping a block and then turning `\n` into `<br/>` rewrites each character on its own |
| RssContent.ParagraphBodyClean | app/rss.xml/route.ts:47-48 | a paragraph body holds no line feed, and every `<` in it starts `<br/>` |
| RssContent.Paragraphs | app/rss.xml/route.ts:46-50 | for at least one block, the joined paragraphs start with `<p>` and end with `</p>`, and hold no line feed |
| RssContent.UnparagraphsParagraphs | app/rss.xml/route.ts:46-50 | reading the joined paragraphs back, one `<p>`…`</p>` at a time, gives exactly the paragraph body of each block, one per block and in order |
| RssContent.FormatContent | app/rss.xml/route.ts:38-53 | the result is empty exactly when the content is blank. Otherwise it starts with `<p>`, ends with `</p>`, and holds no line feed |
| RssContent.FormatContentBlocks | app/rss.xml/route.ts:38-53 | for content that is not blank the output holds one paragraph per block of the normalised text, and the body of paragraph i is block i with each character rewritten as its entity or `<br/>`. Blank content gives no paragraph |
| RssFeed.CategoriesXml | app/rss.xml/route.ts:66-68 | the category markup is empty exactly when there are no categories, and otherwise holds a `<category>` element for every tag |
| RssFeed.EncodedContent | app/rss.xml/route.ts:69-71 | `<content:encoded>` appears exactly when the HTML is present and non-empty |
| RssFeed.BuildItemXml | app/rss.xml/route.ts:65-84 | the item holds CDATA title and description elements, escaped link and guid elements, the pubDate element and the category markup. It holds the encoded-content element when there is content |
| RssFeed.BuildItemXmlCategories | app/rss.xml/route.ts:66-68 | an item with categories holds a `<category>` element for every tag |
| RssFeed.BuildItemXmlEmptyOptionals | app/rss.xml/route.ts:66-71 | absent and empty categories give the same item, and so do absent and empty content |
| RssFeed.ItemLinksRoundTrip | app/rss.xml/route.ts:78-79 | link and guid are recovered from their escaped form, and that form holds no `<` |
| RssFeed.FeedOrder | app/rss.xml/route.ts:89-91 | the sorted copy is a permutation of the items, non-increasing in publish time, and items with equal times keep their order |
| RssFeed.ItemsXml | app/rss.xml/route.ts:93 | the joined items are empty exactly when there are no items, and carry every item's XML |
| RssFeed.ItemsXmlSingle | app/rss.xml/route.ts:93 | the XML of a single item is that item's `buildItemXml` |
| RssFeed.ItemsXmlAppend | app/rss.xml/route.ts:93 | the XML of `a + b` is the XML of `a` followed by the XML of `b`, so each item is written once, in order |
| RssFeed.GenerateRssXml | app/rss.xml/route.ts:86-116 | every item's XML occurs in the document, whatever order the sort puts it in |
| RssFeed.GenerateRssXmlOrdered | app/rss.xml/route.ts:86-116 | the document is the channel head, then the XML of a permutation of the items that is newest first and keeps items of equal time in their original order, then the channel's close |
| RssFeed.GenerateRssXmlEmpty | app/rss.xml/route.ts:95-115 | no items give the bare channel: the head, then directly the closing tags |
| RssFeed.NormalizeDate | app/rss.xml/route.ts:30-36 | a present, non-empty, valid date is that time; an absent, empty or invalid date is the current time |
| RssFeed.BlogItem | app/rss.xml/route.ts:139-153 | link and guid are both the site URL, `/blog/` and the slug. The title is the post's. A missing description becomes `""`. The tags are the categories, the date is normalised, and the content HTML is the post's |
| RssFeed.NoteItem | app/rss.xml/route.ts:155-168 | the title gets ` (Note)`, the description names the note, `link == guid` is the encoded notes API URL, and the categories are exactly `["notes"]` |
| RssFeed.NoteTime | app/rss.xml/route.ts:127-137 | the note's time is its file's modification time, or now when `stat` fails |
| RssFeed.LoadPosts | app/rss.xml/route.ts:121-123 | a failed load carries a non-ENOENT error, and a load keeps at most one post per listed entry |
| RssFeed.FoundMembers | app/rss.xml/route.ts:123 | a post passes `.filter(Boolean)` exactly when some read gave it |
| RssFeed.LoadPostsFound | app/rss.xml/route.ts:121-123 | a successful load is exactly the posts whose read found them, in listing order |
| RssFeed.LoadPostsOk | app/rss.xml/route.ts:121-123 | loading succeeds exactly when no read fails with a non-ENOENT error |
| RssFeed.LoadPostsComplete | app/rss.xml/route.ts:121-123 | a successful load keeps a post for every entry exactly when every file is there |
| RssFeed.LoadPostsSources | app/rss.xml/route.ts:121-123 | each kept post is `getBlogPostBySlug` of a listed slug |
| RssFeed.FeedItems | app/rss.xml/route.ts:139-170 | the posts' items come first, in order, followed by the notes' items |
| RssFeed.GatherItems | app/rss.xml/route.ts:119-170 | gathering succeeds exactly when the post listing, the post reads and the note listing succeed, and then gives the items of the loaded posts and notes |
| RssFeed.Respond | app/rss.xml/route.ts:170-182 | the response fails exactly when gathering failed, and otherwise carries every gathered item |
| RssFeed.RespondFeed | app/rss.xml/route.ts:170-176 | a successful response is `generateRssXml` of the gathered items, with the build date |
| RssFeed.Feed | app/rss.xml/route.ts:118-183 | `GET` fails exactly when gathering fails, and the feed then carries every gathered item |
| RssFeed.FeedDocument | app/rss.xml/route.ts:118-176 | a successful `GET` answers with `generateRssXml` of the gathered items, dated with the clock's time |
| RssFeed.RenamedPostLeftOut | app/rss.xml/route.ts:120-123 | a post `a.mdx` whose front matter sets slug `b` is listed as `b`, then reading `b.mdx` finds nothing, so the feed drops it |
| Text.Trim | app/components/layout/search-modal.tsx:20 | `trim()` is empty exactly for all-whitespace text, leaves no whitespace at either end, and adds no character |
| Text.TrimSlice | app/components/layout/search-modal.tsx:20 | `trim()` returns a slice of the text with only whitespace before and after it |
| Text.TrimIdempotent | app/components/layout/search-modal.tsx:20 | trimming twice is trimming once |
| Text.ToLowerIdempotent | app/components/layout/search-modal.tsx:20 | lower-casing twice is lower-casing once |
| Text.TrimToLower | app/components/layout/search-modal.tsx:20 | trimming and lower-casing commute |
| Text.NormalizeQueryCase | app/components/layout/search-modal.tsx:20 | `query.trim().toLowerCase()` is the same for a query and its lower-cased form |
| Text.NormalizeQueryIdempotent | app/components/layout/search-modal.tsx:20 | normalising a normalised query changes nothing |
| Text.NormalizeQueryEmpty | app/components/layout/search-modal.tsx:20-22 | the normalised query is empty exactly when the query is all whitespace |
| Sidebar.FilteredLinks | app/components/layout/sidebar.tsx:6-25 | a blank query gives all seven links. Otherwise a link is shown exactly when its lower-cased label contains the normalised query. The shown links keep their fixed order |
| Sidebar.ShowsNoResultsWhen | app/components/layout/sidebar.tsx:55 | "No results" shows exactly when the query is not blank and no label contains it |
| Sidebar.FilteredLinksIgnoresCase | app/components/layout/sidebar.tsx:20-24 | a query and its lower-cased form show the same links |
| SearchModal.HaystackSpelled | app/components/layout/search-modal.tsx:26-32 | the haystack is the lower-cased title, description and tags, joined by single spaces |
| SearchModal.NullTagNotMatched | app/components/layout/search-modal.tsx:26-33 | a page whose only tag is `null` has the empty tag text that `join` gives it, so the query "null" does not find it |
| SearchModal.HaystackParts | app/components/layout/search-modal.tsx:26-32 | the haystack contains the lower-cased title, the lower-cased description when there is one, and the lower-cased tags |
| SearchModal.FilteredPages | app/components/layout/search-modal.tsx:20-35 | a blank query gives every page. Otherwise a page is kept exactly when its haystack contains the normalised query. The kept pages keep their order |
| SearchModal.TitleMatchFound | app/components/layout/search-modal.tsx:25-34 | a page whose title contains the query, in any case, is found |
| SearchModal.EnterWithBlankQuery | app/components/layout/search-modal.tsx:93-98 | with a blank query and at least one page, Enter's target is the first page |
| SearchModal.SearchModal.constructor | app/components/layout/search-modal.tsx:15-17 | the dialog starts closed, with an empty query and no navigation |
| SearchModal.SearchModal.Results | app/components/layout/search-modal.tsx:105-108 | no list is shown while the dialog is closed or the query is blank. Otherwise the filtered pages are shown |
| SearchModal.SearchModal.Open | app/components/layout/search-modal.tsx:37-41 | opening clears the query and navigates nowhere |
| SearchModal.SearchModal.Type | app/components/layout/search-modal.tsx:61-92 | typing, possible only while the dialog is open, sets the query and changes nothing else |
| SearchModal.SearchModal.Select | app/components/layout/search-modal.tsx:54-57 | in the open dialog, selecting pushes `/slug` onto the history, then closes the dialog |
| SearchModal.SearchModal.PressEnter | app/components/layout/search-modal.tsx:93-98 | Enter in the open dialog navigates to the first filtered page and closes the dialog when there is such a page, and otherwise does nothing |
| SearchModal.SearchModal.PressEscape | app/components/layout/search-modal.tsx:43-47 | Escape leaves the dialog closed and changes nothing else |
| ThemeProvider.HydratedTheme | app/components/theme-provider.tsx:164-174 | the theme a mount settles on is always one of the fifteen theme ids |
| ThemeProvider.HydratedThemeChoice | app/components/theme-provider.tsx:164-174 | a stored valid id is kept, and storage is left alone. An absent or unknown value gives `"mint"`, written to the key. Either way the key then names a theme |
| ThemeProvider.ReloadKeepsTheme | app/components/theme-provider.tsx:164-171 | a saved valid theme is the theme of the next load, and that load writes nothing |
| ThemeProvider.HydrationIdempotent | app/components/theme-provider.tsx:164-174 | mounting again after a mount changes neither the theme nor the storage |
| ThemeProvider.ThemeProvider.constructor | app/components/theme-provider.tsx:144-157 | the state starts at `"mint"`, with the first-paint flag set |
| ThemeProvider.ThemeProvider.Hydrate | app/components/theme-provider.tsx:159-175 | a stored valid id becomes both the root theme and the state, and storage is not written. Otherwise `"mint"` is written to storage and the root, and the state is untouched |
| ThemeProvider.ThemeProvider.ChangeEffect | app/components/theme-provider.tsx:177-188 | the first run only clears the flag. Each later run writes the theme to the root and to the storage key |
| ThemeProvider.ThemeProvider.SetTheme | app/components/theme-provider.tsx:177-190 | a new theme becomes the state and is written to root and storage, while the same theme changes nothing. With a valid id, synced state stays synced |
| ThemeProvider.ThemeProvider.Mount | app/components/theme-provider.tsx:155-188 | after mount the state is the hydrated theme and storage is the hydrated storage. State, root and storage all agree on a valid id |
| ThemeProvider.UseTheme | app/components/theme-provider.tsx:195-201 | the hook fails, with its message, exactly when there is no provider, and otherwise returns the context |

## Left out

- File-system access (`readdir`, `readFile`, `stat`), the response headers and status codes of `GET`, and `console.error`. Listings, file contents and modification times are parameters. ENOENT is `NotFound`, and every other failure is `OtherError`.
- gray-matter, a foreign YAML parser. Its output is the `Fields` map.
- Values of the front matter that are not strings. The `as string` cast leaves such a value in place at run time. The model carries it as the text `String` gives it, and a `null` inside a tag array as the empty text `join` gives it. That is what the search haystack sees, but not what the calls that throw on such a value see (the lines below).
- Blog.GetAllBlogPostsMetadata: a title that is not a string (a number, a date, a list) has no `localeCompare`. The sort then throws a TypeError and the listing rejects. The model compares the title's text and succeeds.
- Projects.GetAllProjectMetadata: a non-string title throws in `localeCompare` in the same way. The listing then rejects, since only ENOENT is caught. The model compares the title's text instead.
- RssFeed.Feed: a post title or tag that is not a string has no `replace`, so `wrapCdata` throws and `GET` answers with the 500 response. The model wraps the text and answers with the feed.
- Pages.NormalizeMeta: only whole-number orders are modelled (`Num` holds an `int`). JavaScript numbers also allow fractions such as `1.5`, which `a.order - b.order` sorts among the integers. They also allow NaN, which makes that comparator inconsistent, so Pages.SortPages says nothing about it.
- FrontMatter.ReadAll: when several reads fail, `Promise.all` rejects with whichever failure settles first, which depends on I/O timing. The model takes the first failing read in listing order. Projects.GetAllProjectMetadata inherits this choice when one read hits ENOENT and another fails otherwise.
- `new Date()`, `Date` parsing, `getTime` and `toUTCString`, which depend on the clock and the locale. They are the parameters `now`, `parse`, `timeOf` and `utc`.
- RssFeed.FeedOrder: an unparseable `pubDate` makes the JavaScript comparator return NaN. `timeOf` is a total integer function, so that case is not modelled.
- `localeCompare`, modelled by lexicographic order on characters. Locale collation rules are not modelled.
- `toLowerCase` and `toUpperCase`, modelled on ASCII letters only. Other letters are left as they are.
- Blog.SortPosts: for a listing that mixes dated and undated posts, the comparator is not a strict weak order (Blog.MixedDatesCycle). Only the permutation is stated for that case.
- `encodeURIComponent`, modelled by the parameter `encode`.
- The rendering of every component (React, framer-motion, Iconify, Next routing), focus handling, the `useMemo` caches, and React's StrictMode double runs of effects.
- SearchModal.SearchModal.PressEscape: the listener is added and removed with the dialog. Only the resulting state is modelled.
- ThemeProvider.ThemeProvider.Hydrate: the `typeof window === "undefined"` branch is left out, because effects run only in the browser.
- `ThemeProvider`'s theme descriptions, labels and colours, which are presentation data; only the ids are kept. `ThemeContextValue` carries only the theme, not the `setTheme` callback.
- Sidebar.NavLink: the field holding the link text is called `caption`, because `label` is a Dafny keyword.
- Slug validation and note metadata files exist in none of the modelled code, so they are not modelled. `getBlogPostBySlug` uses its slug directly in the path.
- The other components, the page components, the layout, the fonts and the static data tables, which make no behavioural promises.
