/**
 * The source collector of `perform_research`: builds the search request,
 * keeps the first three organic results, runs the extractor on each and
 * assembles the numbered text blocks handed to the language model and the
 * metadata list shown as "Source n". The search call itself is not
 * modelled: its organic results are an input. The extractor and the host
 * part of a URL (`urlparse(link).netloc`) are parameters.
 */
module Collector {
  import opened Wrappers
  import opened Text
  import Extractor

  /** One organic search hit; a missing key is `None`. */
  datatype SearchResult = SearchResult(title: Option<string>, link: Option<string>, snippet: Option<string>)

  /** What the collector keeps about one selected source. */
  datatype SourceMetadata = SourceMetadata(
    title: string,
    link: string,
    domain: string,
    authors: seq<string>,
    publishDate: string)

  /** At most this many organic results are used. */
  const MaxSources := 3

  /** The sentinel time filter that means "no recency restriction". */
  const AnyTime := "any"

  /** The line that separates two source blocks in the model's input. */
  const BlockSeparator := "\n---\n"

  // ---------------------------------------------------------------- request

  /**
   * The search request parameters: query, engine, key, region and language
   * always; the recency filter `tbs` only when the time filter is not the
   * "any" sentinel.
   */
  function SearchParams(query: string, timeFilter: string, region: string, language: string, apiKey: string)
    : (p: map<string, string>)
    ensures "tbs" in p <==> timeFilter != AnyTime
    ensures "tbs" in p ==> p["tbs"] == "qdr:" + timeFilter
    ensures p.Keys - {"tbs"} == {"q", "engine", "api_key", "gl", "hl"}
    ensures p["q"] == query && p["engine"] == "google" && p["api_key"] == apiKey
    ensures p["gl"] == region && p["hl"] == language
  {
    var base := map["q" := query, "engine" := "google", "api_key" := apiKey, "gl" := region, "hl" := language];
    if timeFilter != AnyTime then base["tbs" := "qdr:" + timeFilter] else base
  }

  // ---------------------------------------------------------------- one source

  function TitleOf(r: SearchResult): string { r.title.GetOr(Extractor.NotAvailable) }
  function LinkOf(r: SearchResult): string { r.link.GetOr(Extractor.NotAvailable) }
  function SnippetOf(r: SearchResult): string { r.snippet.GetOr("") }

  /** The host of the link, or "N/A" when the link itself is the placeholder. */
  function Domain(link: string, netloc: string -> string): string {
    if link == Extractor.NotAvailable then Extractor.NotAvailable else netloc(link)
  }

  /** A URL host never contains a slash, as `urlparse(...).netloc` guarantees. */
  ghost predicate HostLike(netloc: string -> string) {
    forall u :: '/' !in netloc(u)
  }

  /** The metadata of one result: its title, link and domain, and what the extractor found. */
  function MetadataOf(r: SearchResult, extract: (string, string) -> Extractor.Extraction, netloc: string -> string)
    : SourceMetadata
  {
    var e := extract(LinkOf(r), SnippetOf(r));
    SourceMetadata(TitleOf(r), LinkOf(r), Domain(LinkOf(r), netloc), e.authors, e.publishDate)
  }

  /** The `Authors:` field: the names separated by ", ", or "N/A" for an empty list. */
  function AuthorsField(authors: seq<string>): string {
    if authors == [] then Extractor.NotAvailable else Join(", ", authors)
  }

  /** The first line of the block for source number `n`. */
  function BlockHeading(n: nat): string {
    "Source " + Decimal(n) + ":\n"
  }

  /** The rest of a block: one labelled line per metadata field, then the extracted text. */
  function BlockFields(m: SourceMetadata, content: string): string {
    "Title: " + m.title + "\nLink: " + m.link
    + "\nAuthors: " + AuthorsField(m.authors) + "\nPublish Date: " + m.publishDate
    + "\nExtracted Content: " + content + "\n"
  }

  /** The text block for source number `n`. */
  function Block(n: nat, m: SourceMetadata, content: string): string {
    BlockHeading(n) + BlockFields(m, content)
  }

  /** The block of a result when it is the `n`-th source. */
  function BlockOf(n: nat, r: SearchResult, extract: (string, string) -> Extractor.Extraction, netloc: string -> string)
    : string
  {
    Block(n, MetadataOf(r, extract, netloc), extract(LinkOf(r), SnippetOf(r)).text)
  }

  // ---------------------------------------------------------------- all sources

  /** The results that are used: the first `MaxSources`, or all when fewer. */
  function Selected(results: seq<SearchResult>): (s: seq<SearchResult>)
    ensures |s| == if |results| < MaxSources then |results| else MaxSources
    ensures s == results[..|s|]
  {
    if |results| < MaxSources then results else results[..MaxSources]
  }

  /** The metadata list, one entry per result in order. */
  function SourcesOf(rs: seq<SearchResult>, extract: (string, string) -> Extractor.Extraction, netloc: string -> string)
    : seq<SourceMetadata>
  {
    if rs == [] then []
    else SourcesOf(rs[..|rs| - 1], extract, netloc) + [MetadataOf(rs[|rs| - 1], extract, netloc)]
  }

  /** The text blocks, numbered 1, 2, ... in the order of the results. */
  function BlocksOf(rs: seq<SearchResult>, extract: (string, string) -> Extractor.Extraction, netloc: string -> string)
    : seq<string>
  {
    if rs == [] then []
    else BlocksOf(rs[..|rs| - 1], extract, netloc) + [BlockOf(|rs|, rs[|rs| - 1], extract, netloc)]
  }

  /** The k-th metadata entry describes the k-th result. */
  lemma {:induction false} SourcesAt(rs: seq<SearchResult>, extract: (string, string) -> Extractor.Extraction, netloc: string -> string)
    ensures |SourcesOf(rs, extract, netloc)| == |rs|
    ensures forall k :: 0 <= k < |rs| ==> SourcesOf(rs, extract, netloc)[k] == MetadataOf(rs[k], extract, netloc)
  {
    if rs != [] {
      SourcesAt(rs[..|rs| - 1], extract, netloc);
    }
  }

  /**
   * The k-th block (counting from 0) is numbered k + 1 and is built from
   * the k-th metadata entry: numbering is 1-based and matches position.
   */
  lemma {:induction false} BlocksAt(rs: seq<SearchResult>, extract: (string, string) -> Extractor.Extraction, netloc: string -> string)
    ensures |BlocksOf(rs, extract, netloc)| == |SourcesOf(rs, extract, netloc)| == |rs|
    ensures forall k :: 0 <= k < |rs| ==>
      BlocksOf(rs, extract, netloc)[k] == Block(k + 1, SourcesOf(rs, extract, netloc)[k], extract(LinkOf(rs[k]), SnippetOf(rs[k])).text)
  {
    SourcesAt(rs, extract, netloc);
    if rs != [] {
      BlocksAt(rs[..|rs| - 1], extract, netloc);
    }
  }

  /** Every block opens with its own number: "Source n:" on the first line. */
  lemma BlockHeader(n: nat, m: SourceMetadata, content: string)
    ensures StartsWith(Block(n, m, content), "Source " + Decimal(n) + ":\n")
  {
    AppendSlices(BlockHeading(n), BlockFields(m, content));
  }

  /**
   * The domain is the placeholder exactly when the link is: with a real
   * link it is the link's host, which never looks like "N/A".
   */
  lemma DomainPlaceholder(link: string, netloc: string -> string)
    requires HostLike(netloc)
    ensures Domain(link, netloc) == Extractor.NotAvailable <==> link == Extractor.NotAvailable
    ensures link != Extractor.NotAvailable ==> Domain(link, netloc) == netloc(link)
  {
    if link != Extractor.NotAvailable {
      assert Extractor.NotAvailable[1] == '/';
      assert '/' !in netloc(link);
    }
  }

  /** The k-th selected source is described by the k-th result, and its block is numbered k+1. */
  lemma SelectedAt(results: seq<SearchResult>, extract: (string, string) -> Extractor.Extraction, netloc: string -> string)
    ensures var selected := Selected(results);
            var sources := SourcesOf(selected, extract, netloc);
            var blocks := BlocksOf(selected, extract, netloc);
            && |sources| == |blocks| == |selected|
            && (forall k :: 0 <= k < |sources| ==> sources[k] == MetadataOf(results[k], extract, netloc))
            && (forall k :: 0 <= k < |sources| ==>
                  blocks[k] == Block(k + 1, sources[k], extract(LinkOf(results[k]), SnippetOf(results[k])).text))
  {
    var selected := Selected(results);
    assert forall k :: 0 <= k < |selected| ==> selected[k] == results[k];
    SourcesAt(selected, extract, netloc);
    BlocksAt(selected, extract, netloc);
  }

  // ---------------------------------------------------------------- the collector

  /**
   * Processes the organic results of the search response (`None` when the
   * response has no such key): no results give `("", [])`; otherwise each
   * of the first three is extracted and described, in order.
   */
  method PerformResearch(organic: Option<seq<SearchResult>>,
                         extract: (string, string) -> Extractor.Extraction,
                         netloc: string -> string)
    returns (llmText: string, sources: seq<SourceMetadata>)
    ensures var results := organic.GetOr([]);
            && |sources| == (if |results| < MaxSources then |results| else MaxSources)
            && (forall k :: 0 <= k < |sources| ==> sources[k] == MetadataOf(results[k], extract, netloc))
            && llmText == Join(BlockSeparator, BlocksOf(Selected(results), extract, netloc))
            && |BlocksOf(Selected(results), extract, netloc)| == |sources|
            && (forall k :: 0 <= k < |sources| ==>
                  BlocksOf(Selected(results), extract, netloc)[k]
                  == Block(k + 1, sources[k], extract(LinkOf(results[k]), SnippetOf(results[k])).text))
            && (results == [] ==> llmText == "" && sources == [])
  {
    var results := organic.GetOr([]);
    if results == [] {
      return "", [];
    }
    var selected := Selected(results);
    var blocks: seq<string> := [];
    sources := [];
    for i := 0 to |selected|
      invariant sources == SourcesOf(selected[..i], extract, netloc)
      invariant blocks == BlocksOf(selected[..i], extract, netloc)
    {
      var sourceNum := i + 1;
      var link := LinkOf(selected[i]);
      var title := TitleOf(selected[i]);
      var snippet := SnippetOf(selected[i]);
      var domain := if link != Extractor.NotAvailable then netloc(link) else Extractor.NotAvailable;
      var e := extract(link, snippet);
      var metadata := SourceMetadata(title, link, domain, e.authors, e.publishDate);
      sources := sources + [metadata];
      blocks := blocks + [Block(sourceNum, metadata, e.text)];
      assert selected[..i + 1][..i] == selected[..i];
    }
    assert selected[..|selected|] == selected;
    SelectedAt(results, extract, netloc);
    llmText := Join(BlockSeparator, blocks);
  }
}
