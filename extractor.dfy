/**
 * The content extractor of `professional_extractor`: a three-tier
 * fallback from a full article parse, to the paragraphs of the raw HTML,
 * to the search snippet. The network and the HTML and article parsers are
 * not modelled; what each of them produced for the link is given as an
 * outcome value, and the extractor is the policy that picks the result.
 */
module Extractor {
  import opened Wrappers
  import Text

  /**
   * What the article parser made of the page: its body text, the detected
   * byline (possibly empty) and the publish date already formatted as
   * YYYY-MM-DD, or an exception while downloading or parsing.
   */
  datatype ArticleOutcome =
    | Article(text: string, authors: seq<string>, publishDate: Option<string>)
    | ArticleError

  /**
   * What the raw-HTML fallback found: for each candidate content root
   * (`<article>`, `<main>`, `<body>`), the texts of its `<p>` elements if
   * the element exists, or an exception while fetching or parsing.
   */
  datatype HtmlOutcome =
    | Html(article: Option<seq<string>>, main: Option<seq<string>>, body: Option<seq<string>>)
    | HtmlError

  /** The extractor's result: text, authors and publish date. */
  datatype Extraction = Extraction(text: string, authors: seq<string>, publishDate: string)

  /** The placeholder for an unknown date, link, title or author list. */
  const NotAvailable := "N/A"

  /** Parsed article text shorter than this is rejected as too short. */
  const MinArticleLength := 250

  /** Tier 1: accept the parsed article when its text is long enough. */
  function ArticleTier(a: ArticleOutcome): (e: Option<Extraction>)
  {
    match a
    case ArticleError => None
    case Article(text, authors, date) =>
      if |text| < MinArticleLength then None
      else Some(Extraction(text, authors, date.GetOr(NotAvailable)))
  }

  /**
   * The content root of the HTML fallback: the first of `<article>`,
   * `<main>` and `<body>` that exists (a found tag is always truthy).
   */
  function ContentRoot(h: HtmlOutcome): (root: Option<seq<string>>)
    requires h.Html?
    ensures h.article.Some? ==> root == h.article
    ensures h.article.None? && h.main.Some? ==> root == h.main
    ensures h.article.None? && h.main.None? ==> root == h.body
  {
    if h.article.Some? then h.article
    else if h.main.Some? then h.main
    else h.body
  }

  /**
   * Tier 2: the paragraph texts of the content root joined by single
   * spaces; without any root the paragraph lookup fails, as does a failed
   * fetch.
   */
  function HtmlTier(h: HtmlOutcome): (e: Option<Extraction>)
  {
    match h
    case HtmlError => None
    case Html(_, _, _) =>
      match ContentRoot(h)
      case None => None
      case Some(paragraphs) => Some(Extraction(Text.Join(" ", paragraphs), [], NotAvailable))
  }

  /** Whether tier 1 accepts the article outcome. */
  predicate ArticleAccepted(a: ArticleOutcome) {
    a.Article? && |a.text| >= MinArticleLength
  }

  /** Whether tier 2 yields a result. */
  predicate HtmlUsable(h: HtmlOutcome) {
    h.Html? && (h.article.Some? || h.main.Some? || h.body.Some?)
  }

  /** The tiers in order, the first that succeeds wins; the snippet is the last resort. */
  function Extract(snippet: string, a: ArticleOutcome, h: HtmlOutcome): (e: Extraction)
    ensures ArticleAccepted(a) ==> e == Extraction(a.text, a.authors, a.publishDate.GetOr(NotAvailable))
    ensures !ArticleAccepted(a) ==> e.authors == [] && e.publishDate == NotAvailable
    ensures !ArticleAccepted(a) && HtmlUsable(h) ==> e.text == Text.Join(" ", ContentRoot(h).value)
    ensures !ArticleAccepted(a) && !HtmlUsable(h) ==> e == Extraction(snippet, [], NotAvailable)
  {
    match ArticleTier(a)
    case Some(e) => e
    case None =>
      match HtmlTier(h)
      case Some(e) => e
      case None => Extraction(snippet, [], NotAvailable)
  }

  /** Which tier supplied the result. */
  datatype Tier = ArticleParse | HtmlFallback | SnippetFallback

  function WinningTier(a: ArticleOutcome, h: HtmlOutcome): Tier {
    if ArticleAccepted(a) then ArticleParse
    else if HtmlUsable(h) then HtmlFallback
    else SnippetFallback
  }

  /**
   * Only the article parse can report authors or a date: an extraction
   * with a byline or a known date came from tier 1 and carries exactly
   * the parser's byline.
   */
  lemma MetadataOnlyFromArticle(snippet: string, a: ArticleOutcome, h: HtmlOutcome)
    requires Extract(snippet, a, h).authors != [] || Extract(snippet, a, h).publishDate != NotAvailable
    ensures WinningTier(a, h) == ArticleParse
    ensures Extract(snippet, a, h).authors == a.authors
  {
  }

  /**
   * An article shorter than the minimum is treated exactly like a failed
   * download: the result is what the later tiers give.
   */
  lemma ShortArticleFallsThrough(snippet: string, a: ArticleOutcome, h: HtmlOutcome)
    requires a.Article? && |a.text| < MinArticleLength
    ensures Extract(snippet, a, h) == Extract(snippet, ArticleError, h)
  {
  }

  /**
   * Whatever the outcomes, the text is the article's, the paragraphs of
   * one content root, or the snippet, following the winning tier.
   */
  lemma ExtractedTextSource(snippet: string, a: ArticleOutcome, h: HtmlOutcome)
    ensures var e := Extract(snippet, a, h);
            match WinningTier(a, h)
            case ArticleParse => e.text == a.text && |e.text| >= MinArticleLength
            case HtmlFallback => e.text == Text.Join(" ", ContentRoot(h).value)
            case SnippetFallback => e.text == snippet
  {
  }
}
