# AI Research Agent — verified model of the overview pipeline, the chat panel and the paper cards

This project models three parts of the AI Research Agent, a paper-feed web application, in Dafny.

**The research-overview pipeline** (`backend/services/overview_service.py`):

- The papers of a time range are grouped by primary category. A paper's primary category is its first category, or `"Uncategorized"` when it has none.
- The groups are ordered by size, largest first, by a stable sort.
- Each group is cut greedily into consecutive batches. A batch of two or more papers fits the token budget; a paper that alone exceeds it gets a batch of its own.
- Each paper is rendered as a prompt entry. The entry lists at most five authors, and `" et al."` when there are more than five, then the date or `"Unknown"`.
- Category ids are turned into friendly names.
- The final markdown document is assembled:
  - a header;
  - an executive summary, only when there are several categories and a summary came back;
  - a numbered table of contents whose links point at slug anchors;
  - one block per category.
- The paper and category counts are returned with the document, and a fixed message when there are no papers.

**The chat panel** of a paper page (`frontend/src/components/ChatInterface.jsx`) is a class with the component's state (`messages`, `input`, `loading`) and its handlers:

- A send is refused for blank input or while a reply is pending.
- Otherwise the user's message is appended and the whole transcript is posted.
- When the request settles, exactly one assistant message is appended: the reply, or a fixed apology.

**The paper cards** of the list page (`frontend/src/components/NewsletterList.jsx`) are pure functions:

- at most three author names, plus `" et al."` when there are more;
- at most two category tags;
- a loading view;
- an empty-list message.

The code is written in the source's own form:

- The grouping loop, the batching loop, the loop over clusters and the markdown assembly are methods with loops. Each is proved equal to a specification function (`Clusters`, `Batches`, `SectionsOf`, `MarkdownParts`), and the source's promises are proved about those functions as lemmas.
- The chat component is a class whose methods are proved against pure step functions. The invariants of the step functions are proved for every run of events.

Modules:

- `Wrappers`: the `Option` type.
- `Text`: joining, splitting, decimal numerals, ASCII lower-casing.
- `Sequences`: prefix facts.
- `Papers`: the paper record.
- `Bylines`: the author line shared by the prompt and the cards.
- `Prompt`: category labels and prompt entries.
- `Clustering`, `Batching`.
- `Markdown`: anchors and document layout.
- `Overview`: sections and the overview result.
- `Chat`.
- `NewsletterList`.

## Model

| member | source | states |
|---|---|---|
| Clustering.PrimaryCategory | backend/services/overview_service.py:79-82 | a paper is filed under its first category, or under "Uncategorized" when it has none |
| Clustering.CategoriesInOrder | backend/services/overview_service.py:77-83 | the dict's keys: no primary category is listed twice |
| Clustering.FirstAppearance | backend/services/overview_service.py:78-83 | the keys come in order of first appearance: for an earlier key some paper of it comes before every paper of a later key |
| Clustering.ClusterPapersByCategory | backend/services/overview_service.py:75-89 | the grouping loop and the sort compute exactly `Clusters(papers)`; the loop keeps, for each category seen, the papers filed under it in input order |
| Clustering.SortBySize | backend/services/overview_service.py:86-88 | the sort returns a permutation of the groups |
| Clustering.SortBySizeOrders | backend/services/overview_service.py:86-88 | the sorted groups are in non-increasing size order, and groups of equal size keep their relative order (stability) |
| Clustering.InsertIsStable | backend/services/overview_service.py:86-88 | one insertion step keeps equal-size groups in their arrival order |
| Clustering.ClustersCoverPapers | backend/services/overview_service.py:78-83 | the clusters hold every input paper, each exactly as often as it occurs in the input (multiset equality) |
| Clustering.ClustersAreCategories | backend/services/overview_service.py:78-83 | categories are distinct; each cluster is non-empty and holds exactly the papers of its category in input order; every paper's category has a cluster |
| Clustering.ClustersBySize | backend/services/overview_service.py:86-88 | the clusters are ordered largest first, and clusters of equal size keep their order in `Grouped`, whose categories come in first-appearance order (`FirstAppearance`) |
| Clustering.ClusterCount | backend/services/overview_service.py:75-89 | there are as many clusters as distinct primary categories |
| Clustering.CategoriesInOrderAreThePrimaries | backend/services/overview_service.py:78-83 | the dict's keys are exactly the set of primary categories of the papers |
| Prompt.FriendlyCategory | backend/services/overview_service.py:96-126 | a category id in the 25-entry table gets its label, any other id stands for itself |
| Prompt.DateText | backend/services/overview_service.py:134 | a missing publication date prints as "Unknown", a present one as its text |
| Prompt.FormatPaperForPrompt | backend/services/overview_service.py:129-135 | a prompt entry starts with "### " and the title and ends with the abstract and a newline |
| Prompt.PromptByline | backend/services/overview_service.py:131-133 | the entry's byline reads back as the first five authors in order, with " et al." exactly when there are more than five |
| Bylines.ShownNames | backend/services/overview_service.py:131 | the printed names are the first min(limit, n) names, in order, and all of them when there are at most `limit` |
| Bylines.ParseAuthorLineRoundTrip | backend/services/overview_service.py:131-133 | reading an author line (`AuthorLine`) back gives exactly the first min(limit, n) names and whether names were left out |
| Batching.BatchPapersByBudget | backend/services/overview_service.py:138-165 | the greedy loop returns `Batches(papers)`; the batches laid end to end give back the input; no batch is empty; a batch of two or more papers fits the budget; each batch plus the next batch's first paper exceeds the budget |
| Batching.ScanIsBatched | backend/services/overview_service.py:150-160 | after each paper the closed batches and the open batch hold the papers seen, and the closed batches have the four properties of the result |
| Batching.BatchesAreGreedy | backend/services/overview_service.py:146-165 | the batching function `Batches` (the closed batches of `Scan`, which applies `Step` paper by paper, then the open one) has the four properties: flattening round-trip, no empty batch, budget bound, greedy maximality |
| Batching.NoPapersNoBatches | backend/services/overview_service.py:162-165 | a batching of no papers without empty batches has no batches |
| Batching.GreedyBatchesAreUnique | backend/services/overview_service.py:150-160 | any two batchings with the four properties are equal, so the four properties determine the greedy result |
| Markdown.RemoveChar | backend/services/overview_service.py:370 | removing a character never lengthens the text, and what is left contains no such character |
| Markdown.RemoveCharCounts | backend/services/overview_service.py:370 | `.replace(c, "")` drops every `c` and keeps every other character as often as it occurs |
| Markdown.RemoveCharConcat | backend/services/overview_service.py:370 | removal works piece by piece, so the remaining characters keep their order |
| Markdown.RemoveCharAbsent | backend/services/overview_service.py:370 | a text without `c` is left unchanged |
| Markdown.SlugMatchesSinglePass | backend/services/overview_service.py:370 | `Slug`, that is lower-casing (`Lower`), replacing spaces by hyphens, and removing "(" and ")" is the same as one character-by-character pass |
| Markdown.SlugIsAnchor | backend/services/overview_service.py:370 | an anchor (`Slug`) contains no spaces, no parentheses and no ASCII capital letters A to Z |
| Markdown.SlugIsIdempotent | backend/services/overview_service.py:370 | the anchor of an anchor is itself: `Slug(Slug(name)) == Slug(name)` |
| Markdown.AssembleMarkdown | backend/services/overview_service.py:352-381 | the appends to `md_parts` build exactly `MarkdownParts` joined by newlines |
| Markdown.OpeningLayout | backend/services/overview_service.py:356-368 | `Opening`: two header lines (`HeaderParts`); then the executive summary heading and text exactly when the summary is non-empty; then the rule and the contents heading |
| Markdown.TocLinesInOrder | backend/services/overview_service.py:369-371 | `TocLines`: contents entry i (`TocEntry`, linking `Slug` of the name) is numbered i + 1 and links section i, one entry per section |
| Markdown.TocEntryNumber | backend/services/overview_service.py:371 | an entry's text before the first "." is its number in decimal, and reads back as that number |
| Markdown.SectionPartsInOrder | backend/services/overview_service.py:375-379 | `SectionParts`: section i fills four lines from 4 * i: heading, count, narrative, rule |
| Markdown.BodyLayout | backend/services/overview_service.py:368-379 | `Body`: after the opening come one entry per section, a rule, and four lines per section, in cluster order |
| Markdown.MarkdownLayout | backend/services/overview_service.py:356-381 | `MarkdownParts`: the document's lines are the opening followed by the body, 4 (+2 with a summary) + 1 + 5n lines in all |
| Overview.SectionsFollowClusters | backend/services/overview_service.py:270-327 | `SectionsOf`: one section per cluster, in cluster order, named by the friendly category, with a positive count equal to the cluster's size; the counts add up to the number of papers |
| Overview.TotalCountOfClusters | backend/services/overview_service.py:327 | the section counts add up to the number of papers in the clusters |
| Overview.NarrateClusters | backend/services/overview_service.py:270-327 | the loop over clusters builds exactly `SectionsOf`: label, budgeted batches and narrative of each cluster, in order |
| Overview.GenerateOverview | backend/services/overview_service.py:236-387 | the whole tail of `generate_overview` computes `OverviewOf`: the fixed result for no papers, otherwise clusters, sections, optional summary and the assembled document with both counts |
| Overview.OverviewCounts | backend/services/overview_service.py:236-387 | in `OverviewOf`, `paper_count` is the number of papers, `cluster_count` the number of distinct primary categories, and no papers give the "No papers found" document |
| Overview.OverviewStartsWithTitle | backend/services/overview_service.py:356-357 | the overview of some papers opens with the title line |
| Overview.SummaryNeedsSeveralCategories | backend/services/overview_service.py:329-363 | the executive summary heading appears exactly when there are at least two categories and the summary is non-empty |
| Chat.TrimEmptyIffBlank | frontend/src/components/ChatInterface.jsx:12 | `input.trim()` is empty exactly when the input is nothing but white space |
| Chat.SendGuard | frontend/src/components/ChatInterface.jsx:12 | a send (`SendStep`) is refused exactly for blank input or while loading, and a refused send changes nothing and posts nothing |
| Chat.SendAccepted | frontend/src/components/ChatInterface.jsx:13-24 | an accepted send (`SendStep`) appends the user's untrimmed input, posts the whole new transcript, clears the input and starts loading |
| Chat.SendThenResolve | frontend/src/components/ChatInterface.jsx:13-31 | a send (`SendStep`) and its outcome (`ResolveStep`, with `ReplyText`) add exactly the question and the reply (or the apology), and leave the panel not loading |
| Chat.SendKeepsConsistent | frontend/src/components/ChatInterface.jsx:11-17 | a send keeps the transcript alternating, with the posted transcript pending while loading |
| Chat.ResolveKeepsConsistent | frontend/src/components/ChatInterface.jsx:26-31 | settling a request (`ResolveStep`) keeps the transcript alternating and every question answered |
| Chat.ApplyAppends | frontend/src/components/ChatInterface.jsx:11-33 | any single event (`Apply`) keeps the state consistent and leaves the old transcript as a prefix |
| Chat.RunAppends | frontend/src/components/ChatInterface.jsx:7-33 | over any run of events (`Run`) the state stays consistent and the transcript is append-only |
| Chat.ChatInterface.constructor | frontend/src/components/ChatInterface.jsx:7-9 | the panel starts with no messages, empty input, not loading |
| Chat.ChatInterface.SetInput | frontend/src/components/ChatInterface.jsx:78 | typing replaces the input and changes nothing else |
| Chat.ChatInterface.HandleSend | frontend/src/components/ChatInterface.jsx:11-24 | the handler's new state and posted transcript are those of `SendStep`, and the state stays consistent |
| Chat.ChatInterface.Resolve | frontend/src/components/ChatInterface.jsx:26-31 | the posted transcript plus one assistant message (reply or apology) becomes the transcript, loading ends, and the state stays consistent |
| NewsletterList.CardTags | frontend/src/components/NewsletterList.jsx:27 | a card shows the first min(2, n) categories, in order |
| NewsletterList.RenderListShows | frontend/src/components/NewsletterList.jsx:8-45 | `RenderList`: while loading only the loading message is shown; otherwise one card (`PaperCard`) per paper in order, and the empty message exactly when there are no papers |
| NewsletterList.CardByline | frontend/src/components/NewsletterList.jsx:39 | a card's (`PaperCard`) author line reads back as the first three authors in order, with " et al." exactly when there are more than three |
| NewsletterList.CardBylineWithoutAuthors | frontend/src/components/NewsletterList.jsx:39 | a paper without authors gets an empty author line |

## Left out

- The database query and its filters (`generate_overview` before line 236): the papers arrive as a sequence, already ordered.
- The language-model calls: the per-batch narratives, the merge step and its fallbacks, and the executive summary. A section's narrative is the value of a parameter `narrate` on the category id, its name and its batches. The summary is the value of a parameter `summarize` on the sections, and `""` stands for a failed call.
- `count_tokens` (tiktoken) is the parameter `countTokens`, an arbitrary function from text to a count.
- `get_context_window`, its cache, and the float arithmetic of the budget: the budget `maxTokens` is an integer parameter and may be negative.
- The settings `overview_model`, `overview_context_window` and `overview_budget_ratio` are read by the service but not defined in `backend/config.py`. They only feed the parts above. As `backend/config.py` stands, reading `settings.overview_model` (overview_service.py:248) raises `AttributeError` for any non-empty selection, and the router turns that into an HTTP 500 (backend/routers/overview.py:88-89), so the document assembly is not reached. The model describes the behaviour once these settings exist.
- Dates: `strftime` is not modelled. The header's start and end dates are given as text. A paper's date is kept as the text `%Y-%m-%d` would print, or `None`.
- The card's `toLocaleDateString` is not modelled; a card keeps the date as it came.
- Markdown.Slug: lower-cases ASCII letters only, where Python's `str.lower` also folds other scripts.
- Markdown.SlugIsAnchor: promises no ASCII capitals (A to Z) only; a non-ASCII capital such as "É" stays in the anchor, where Python would lower-case it.
- The header strings at overview_service.py:357-358 are stored in the source file as mis-decoded UTF-8. The model reproduces those exact characters.
- Bylines.ParseAuthorLineRoundTrip: proved for a non-empty list of names that are non-empty and contain no comma and no final full stop. Other names ("Smith, Jr.", "J. Smith Jr.") make the joined line ambiguous to read back. The line itself is built for any names.
- Prompt.PromptByline: the same restriction: the read-back of the prompt's author line is proved only for a non-empty list of such plain names, although the source prints any names.
- NewsletterList.CardByline: the same restriction: the read-back of the card's author line is proved only for a non-empty list of such plain names, although the source prints any names. An empty list is covered by `CardBylineWithoutAuthors`.
- NewsletterList.CardTags: the JavaScript guard `paper.categories &&` against a missing category list is not modelled; a paper always has a (possibly empty) list.
- The chat panel's HTTP request is not modelled.
  - `HandleSend` returns the transcript that would be posted.
  - `Resolve` receives the reply, or `None` for a failed request.
  - The transcript captured by the handler's closure is the field `pending`.
- Chat.Run: a `Settled` event while nothing is pending is ignored; the component cannot produce one.
- React's batching of state updates is not modelled. Overlapping handler invocations before a re-render are not modelled either.
- JSX markup, styling, navigation and the other components and routers are not modelled.
