# AI Research Agent: a verified model of the report pipeline

This project models the core of `AI_Researcher.py`, a research assistant. Given a query, it does four things:

- It searches the web and keeps the first three organic results.
- It pulls content out of each linked page through a three-tier fallback.
- It asks a language model for a structured JSON report.
- It renders that report both as Markdown and as a PDF.

The model covers the deterministic logic between those external calls:

- **Extractor** (`extractor.dfy`): the tier policy of `professional_extractor`.
  - Tier 1 is a full article parse, accepted only when its text has at least 250 characters.
  - Tier 2 is the `<p>` texts of the first content root found: `<article>`, then `<main>`, then `<body>`, joined by single spaces.
  - Tier 3 is the search snippet.
  - Authors and publish date come only from tier 1; every other tier reports `[]` and `"N/A"`.
  - What the network and the parsers produced is an input outcome value.
- **Collector** (`collector.dfy`): `perform_research`.
  - The search parameters, including the `tbs=qdr:<filter>` recency filter, which is set only when the filter is not `"any"`.
  - The empty-result early return.
  - The selection of the first three results, and for each one its metadata and its numbered "Source n" text block.
  - The `"\n---\n"` join of the blocks.
  - The extractor and `urlparse(link).netloc` are parameters.
- **Synthesizer** (`synthesizer.dfy`): the four prompt parts of `generate_report`.
  - The instruction block with the tone directive appended, then the query, the content label and the research text.
  - The round trip is proved for any instruction block: the tone and the query can be recovered from the parts, and the research text is passed on unchanged.
- **Renderer** (`renderer.dfy`): `render_report_from_json`.
  - The imperative `RenderReport` appends the elements section by section, as the source does. Its contract ties the result to the function `Render`.
  - Lemmas about `Render` establish three things: sections appear exactly when their field is truthy, they come in the fixed order, and every section except the highlight and the citations is closed by the divider element.
- **Paginator** (`paginator.dfy`): the line loop of `create_pdf`.
  - The Markdown is split on `'\n'`, and any line containing the opening or closing tag of the highlight box is skipped.
  - Every other line goes through three steps: the sparkle marker `"✨ "` is removed, the line is stripped, and characters outside Latin-1 become `?`.
  - The cleaned line is then classified into exactly one layout rule, checked in this order: blank, `# `, `## `, `### `, `* `, `---`, paragraph.
  - A page is the sequence of rules applied. `Paginate` is the loop, proved against the function `PageOf`.
- **ReportExport** (`export.dfy`) connects the two renderings. The page of a joined document is the concatenation of the pages of its elements. It also pins down what each kind of element becomes on the page.

The model also shows one behaviour of the source that may not be intended. The highlighted finding is rendered on the same line as its `<div class="highlight-box">` wrapper, so the PDF loop skips the finding together with the wrapper. The PDF therefore shows the highlight heading but never a finding written on a single line (`ReportExport.HighlightBoxPage`, `ReportExport.HighlightDroppedFromPage`). When the finding itself holds line breaks, the lines between the opening-tag line and the closing-tag line are drawn. The model keeps this behaviour as written.

Python semantics are spelled out in `text.dfy`:

- `str.split` always returns at least one piece.
- `str.join`.
- `str.strip` over Python's whitespace set.
- `str.replace` of a pattern by `""`, deleting left to right.
- The `in` substring test.
- `encode('latin-1', 'replace')`.
- `str(n)` for source numbers.

Python truthiness is modelled directly: a missing field, an empty string and an empty list all count as "absent".

## Model

| member | source | states |
|---|---|---|
| Text.Split | AI_Researcher.py:95 | splitting on a character gives at least one piece and no piece contains that character |
| Text.JoinSplit | AI_Researcher.py:95 | joining the pieces of a split with the separator gives back the original string |
| Text.SplitJoin | AI_Researcher.py:325 | splitting a newline join of newline-free elements gives back exactly those elements |
| Text.SplitAround | AI_Researcher.py:95 | splitting around one separator is the concatenation of the splits of both sides |
| Text.Strip | AI_Researcher.py:100 | the stripped line has no leading or trailing whitespace |
| Text.StripSlice | AI_Researcher.py:100 | strip returns a contiguous slice of its input and everything it removed on either side is whitespace |
| Text.StripKeepsStripped | AI_Researcher.py:100 | stripping an already stripped line changes nothing |
| Text.RemoveAll | AI_Researcher.py:100 | removing the sparkle marker never lengthens a line or introduces a character |
| Text.RemoveAllAbsent | AI_Researcher.py:100 | a line without the marker is left unchanged |
| Text.RemoveAllKeepsPrefix | AI_Researcher.py:100 | a prefix that cannot start the marker is kept as is, and removal works on the rest |
| Text.Latin1Replace | AI_Researcher.py:101 | the Latin-1 round trip keeps the length and yields only Latin-1 characters |
| Text.Latin1ReplaceAt | AI_Researcher.py:101 | each character is kept when it is Latin-1 and becomes `?` otherwise |
| Text.Latin1ReplaceKeeps | AI_Researcher.py:101 | a Latin-1 line passes through unchanged |
| Text.Latin1ReplaceChars | AI_Researcher.py:101 | every character of the result comes from the line or is `?` |
| Text.Decimal | AI_Researcher.py:268 | the source number prints as a non-empty run of digits with no leading zero |
| Text.DecimalRoundTrip | AI_Researcher.py:268 | reading the printed number back gives the number |
| Text.DecimalInjective | AI_Researcher.py:268 | distinct source numbers print differently |
| Extractor.ArticleTier | AI_Researcher.py:206-219 | tier 1: the parsed article when its text has at least 250 characters, with the date or "N/A"; nothing on an error or a short text |
| Extractor.HtmlTier | AI_Researcher.py:223-232 | tier 2: the paragraphs of the content root joined by spaces, with no authors and "N/A"; nothing on an error or a missing root |
| Extractor.ContentRoot | AI_Researcher.py:228 | the content root is `<article>` if present, else `<main>`, else `<body>` |
| Extractor.Extract | AI_Researcher.py:199-237 | an accepted article gives its text, byline and date (or "N/A"); otherwise the authors are empty and the date is "N/A", and the text is the joined paragraphs of a usable page or else the snippet |
| Extractor.MetadataOnlyFromArticle | AI_Researcher.py:206-237 | non-empty authors or a real date can only come from the article tier, and then the authors are the article's byline |
| Extractor.ShortArticleFallsThrough | AI_Researcher.py:216-217 | an article under 250 characters gives the same result as a failed article parse |
| Extractor.ExtractedTextSource | AI_Researcher.py:206-237 | the text is the article's (at least 250 characters), the HTML paragraphs or the snippet, according to which tier wins |
| Collector.SearchParams | AI_Researcher.py:241-246 | `tbs` is present exactly when the filter is not "any", and it is then `qdr:` plus the filter; the other five keys carry the query, "google", the key, the region and the language |
| Collector.Selected | AI_Researcher.py:255 | the selected results are the first three, or all of them when there are fewer |
| Collector.SourcesAt | AI_Researcher.py:254-266 | the k-th metadata entry describes the k-th result |
| Collector.BlocksAt | AI_Researcher.py:254-268 | the k-th text block is the block numbered k+1 for the k-th result and its extracted content |
| Collector.BlockHeader | AI_Researcher.py:256-268 | every block starts with "Source n:" on its own line |
| Collector.DomainPlaceholder | AI_Researcher.py:261 | the domain is "N/A" exactly when the link is "N/A", and otherwise it is the host of the link |
| Collector.PerformResearch | AI_Researcher.py:239-269 | no results give `("", [])`; otherwise there is one metadata entry per selected result, in order, and the text is the blocks joined by the divider, where the k-th block is numbered k+1 and belongs to the k-th metadata entry and that result's extracted content |
| Collector.SelectedAt | AI_Researcher.py:254-268 | over the selected results, the k-th metadata entry describes the k-th result, and the k-th block is numbered k+1 and carries that entry |
| Collector.MetadataOf | AI_Researcher.py:257-265 | a result's title, link and domain, with the authors and date found by the extractor |
| Collector.Domain | AI_Researcher.py:261 | the host of the link, or "N/A" for the "N/A" link |
| Collector.AuthorsField | AI_Researcher.py:268 | the authors joined by ", ", or "N/A" when there are none |
| Collector.Block | AI_Researcher.py:268 | the numbered text block: heading line, one labelled line per field, then the extracted content |
| Synthesizer.PromptParts | AI_Researcher.py:273-274 | four parts: the instructions followed by the tone directive (prefix, tone, closing `**.`), the labelled query, the content label, and the research text |
| Synthesizer.PromptRoundTrip | AI_Researcher.py:273-274 | the tone and the query can be read back out of the prompt parts, the tone directive ends with its closing `**.`, and the research text is passed on unchanged |
| Synthesizer.ReportPrompt | AI_Researcher.py:273-274 | the prompt of the fixed instruction block: the parts built on `MasterPrompt` |
| Renderer.Bullets | AI_Researcher.py:293-294 | one "* item" line per item, in order |
| Renderer.SectionLines | AI_Researcher.py:282-323 | every rendered section starts with its heading |
| Renderer.SectionsInOrder | AI_Researcher.py:278-325 | the document is the lines of exactly the populated sections, in strictly increasing section order |
| Renderer.DividerAfterSection | AI_Researcher.py:282-323 | a populated section ends with the divider exactly when it is neither the highlight nor the citations |
| Renderer.ViewpointsLayout | AI_Researcher.py:302-313 | the pros sub-list precedes the cons sub-list, each with its sub-heading and only when non-empty |
| Renderer.FiveSectionReport | AI_Researcher.py:282-323 | when the highlight and the viewpoints are absent or empty (falsy) and the other fields are populated, the report shows summary, findings, analysis, conclusion and citations, in that order |
| Renderer.Present | AI_Researcher.py:282-320 | the truthiness test of each section's field, including the pros-or-cons test of the viewpoints |
| Renderer.Part | AI_Researcher.py:282-323 | a section contributes its lines when its field is truthy and nothing otherwise |
| Renderer.Render | AI_Researcher.py:278-325 | the newline join of the elements of every section in the fixed order |
| Renderer.AppendBullets | AI_Researcher.py:293-294 | the loop appends one bullet line per item |
| Renderer.AppendHighlight | AI_Researcher.py:282-284 | appends the highlight heading and box when the finding is truthy, and nothing otherwise |
| Renderer.AppendProse | AI_Researcher.py:286-318 | appends the heading, the text and the divider of a truthy prose section, and nothing otherwise |
| Renderer.AppendList | AI_Researcher.py:291-323 | appends the heading and bullets of a non-empty list section, plus the divider for the findings only |
| Renderer.AppendViewpoints | AI_Researcher.py:302-313 | appends the viewpoints section when either list is non-empty, and nothing otherwise |
| Renderer.RenderReport | AI_Researcher.py:278-325 | the Markdown built step by step is the newline join of the report's elements |
| Paginator.IsWrapper | AI_Researcher.py:97-98 | a line is skipped when it contains the opening or the closing tag of the highlight box |
| Paginator.Classify | AI_Researcher.py:100-124 | the rule of a line is the rule of its cleaned form |
| Paginator.RuleOf | AI_Researcher.py:103-124 | the rule of a cleaned line, tested in the source's order: blank, `# `, `## `, `### `, `* `, `---`, paragraph |
| Paginator.Clean | AI_Researcher.py:100-101 | a cleaned line is stripped and Latin-1 only |
| Paginator.CleanKeepsClean | AI_Researcher.py:100-101 | cleaning is idempotent on clean lines |
| Paginator.CleanNoNewline | AI_Researcher.py:100-101 | cleaning never introduces a line break |
| Paginator.MarkersExclusive | AI_Researcher.py:107-119 | a line matches at most one of the heading, bullet and rule markers |
| Paginator.RuleOfExactlyOne | AI_Researcher.py:103-124 | a cleaned line gets each rule exactly when it has that rule's form (both directions, for all seven rules) |
| Paginator.ClassifyExactlyOne | AI_Researcher.py:100-124 | the same characterisation, stated for raw lines in terms of their cleaned form |
| Paginator.MarkedText | AI_Researcher.py:107-118 | a heading or bullet rule draws the stripped text after its marker, which is clean and non-empty |
| Paginator.ParagraphText | AI_Researcher.py:122-124 | a paragraph draws the whole cleaned line |
| Paginator.MarkedReproducible | AI_Researcher.py:107-118 | writing a heading or bullet rule back as marker plus text gives a line that classifies to the same rule |
| Paginator.RuleOfReproducible | AI_Researcher.py:103-124 | every rule of a cleaned line is reproduced by its written-out form |
| Paginator.ClassifyReproducible | AI_Researcher.py:100-124 | every rule the walk produces is reproducible, and it has no line break when the line had none |
| Paginator.Walk | AI_Researcher.py:95-98 | the walk draws at most one rule per line |
| Paginator.WalkAppend | AI_Researcher.py:95-98 | walking consecutive lines gives the concatenation of their pages |
| Paginator.WalkOrigin | AI_Researcher.py:95-98 | every rule on the page is the rule of some line that was not skipped |
| Paginator.Paginate | AI_Researcher.py:95-124 | the loop produces the page of the Markdown |
| Paginator.PageRulesReproducible | AI_Researcher.py:95-124 | every rule on the page of single lines is reproducible and has no line break |
| Paginator.Reclassify | AI_Researcher.py:95-124 | writing out a page of reproducible, non-wrapper rules and walking it again gives the same page |
| Paginator.RepaginationStable | AI_Researcher.py:95-124 | walking the text of a page again reproduces the page |
| ReportExport.PageOfJoin | AI_Researcher.py:95 | the page of elements joined by newlines is the concatenation of the elements' pages |
| ReportExport.PagesOfAppend | AI_Researcher.py:95 | the pages of two runs of elements concatenate |
| ReportExport.DividerPage | AI_Researcher.py:103-121 | the divider element becomes blank space, a horizontal rule, and blank space |
| ReportExport.BulletPage | AI_Researcher.py:116-118 | a clean list item is drawn as one bullet carrying it |
| ReportExport.MarkedLinePage | AI_Researcher.py:107-118 | a marker followed by clean text is drawn as exactly that rule |
| ReportExport.HeadingPage | AI_Researcher.py:110-112 | every section heading except the highlight's is drawn as a second-level heading with the section title |
| ReportExport.SparkleHeadingPage | AI_Researcher.py:100-115 | a sparkled third-level heading is drawn as a third-level heading without the sparkle |
| ReportExport.HighlightHeadingPage | AI_Researcher.py:100-115 | the highlight heading is drawn as a third-level heading showing only its title |
| ReportExport.HighlightBoxPage | AI_Researcher.py:97-98 | the highlight box line, finding included, is skipped entirely |
| ReportExport.ElementsWithHighlight | AI_Researcher.py:282-284 | a report with a highlight renders the heading and box first, then exactly what it would render without the highlight |
| ReportExport.HighlightDroppedFromPage | AI_Researcher.py:97-98 | the page of a report with a highlight is the highlight heading followed by the page of the report without the highlight |
| ReportExport.SectionPage | AI_Researcher.py:107-121 | every non-highlight section's page opens with its second-level heading, and every section closed by a divider ends with blank, rule, blank |

## Left out

- The Streamlit user interface, session state, the sidebar options and the download buttons are not modelled. They are presentation only.
- API-key configuration and the environment are not modelled.
- The SerpAPI search call is not modelled. Its organic results are an input, and a missing `organic_results` key is `None`.
- The article download and parse, the HTTP fetch, and the HTML parse of `professional_extractor` are not modelled. Their outcomes are input values (`ArticleOutcome`, `HtmlOutcome`), and any exception raised inside them is the error alternative.
- `urlparse(link).netloc` is a parameter of the collector. URL parsing is not modelled.
- `Collector.DomainPlaceholder`: assumes the host function never yields a `/` (`HostLike`). This holds for `urlparse(...).netloc`, which stops at the first `/`, `?` or `#`. Without it, a host equal to "N/A" could not be told apart from the placeholder.
- The Gemini call and `json.loads` of its reply are not modelled. The report is an input datatype, so malformed JSON is out of scope.
- FPDF drawing is not modelled: fonts, cell widths, line heights, page breaks, and the header and footer (the footer reads the clock). A page is the sequence of layout rules applied.
- The PDF file name and the byte output are not modelled.
- Logging through `print` is left out because it has no effect on results.
- `Synthesizer.PromptRoundTrip`: proved for an arbitrary instruction block rather than for the fixed `MasterPrompt` text. `ReportPrompt` instantiates it with that text.
- `ReportExport.HighlightDroppedFromPage`: stated only for a finding without line breaks. A multi-line finding splits the box over several lines, and the lines between the opening and the closing tag are drawn.
- `Paginator.RepaginationStable`: stated only for non-empty pages whose written-out lines contain neither highlight-box tag. A line with a tag would be skipped on the second walk. An empty page writes out as one empty line, which draws a blank.
