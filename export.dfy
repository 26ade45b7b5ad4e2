/**
 * The two renderings of one report side by side: the Markdown of
 * `render_report_from_json` fed, line by line, to the walk of `create_pdf`.
 * The page of a joined document is the concatenation of the pages of its
 * elements, so what each kind of element becomes on the page can be stated
 * once and then assembled.
 */
module ReportExport {
  import opened Wrappers
  import opened Text
  import opened Renderer
  import opened Paginator

  /** The pages of the elements, one after the other. */
  function PagesOf(parts: seq<string>): seq<Rule> {
    if parts == [] then [] else PageOf(parts[0]) + PagesOf(parts[1..])
  }

  /** The page of consecutive lines is the concatenation of their pages. */
  lemma PageRulesAppend(a: seq<string>, b: seq<string>)
    ensures PageRules(a + b) == PageRules(a) + PageRules(b)
  {
    WalkAppend(a, b, Classify);
  }

  /**
   * Joining the elements with line breaks and walking the lines gives the
   * pages of the elements in order: an element never shares a line with
   * its neighbours.
   */
  lemma {:induction false} PageOfJoin(parts: seq<string>)
    requires parts != []
    ensures PageOf(Join("\n", parts)) == PagesOf(parts)
  {
    if |parts| == 1 {
      assert PagesOf(parts[1..]) == [];
    } else {
      var rest := Join("\n", parts[1..]);
      assert Join("\n", parts) == parts[0] + ['\n'] + rest;
      SplitAround(parts[0], rest, '\n');
      PageRulesAppend(Split(parts[0], '\n'), Split(rest, '\n'));
      PageOfJoin(parts[1..]);
    }
  }

  /** The pages of two runs of elements, one after the other. */
  lemma {:induction false} PagesOfAppend(a: seq<string>, b: seq<string>)
    ensures PagesOf(a + b) == PagesOf(a) + PagesOf(b)
  {
    if a != [] {
      assert (a + b)[0] == a[0];
      assert (a + b)[1..] == a[1..] + b;
      PagesOfAppend(a[1..], b);
    } else {
      assert a + b == b;
    }
  }

  /** The page of an element followed by more elements. */
  lemma PagesOfCons(a: string, rest: seq<string>)
    ensures PagesOf([a] + rest) == PageOf(a) + PagesOf(rest)
  {
    assert ([a] + rest)[0] == a && ([a] + rest)[1..] == rest;
  }

  /** The page of a run of elements between an opening and a closing element. */
  lemma FramedPage(first: string, mid: seq<string>, last: string)
    ensures PagesOf([first] + mid + [last]) == PageOf(first) + (PagesOf(mid) + PageOf(last))
  {
    assert [first] + mid + [last] == [first] + (mid + [last]);
    PagesOfCons(first, mid + [last]);
    PagesOfAppend(mid, [last]);
    assert PagesOf([last]) == PageOf(last) by {
      assert [last][1..] == [];
    }
  }

  /** A line without a line break or a `<` is a line of its own that is never skipped. */
  lemma SingleLinePage(line: string)
    requires '\n' !in line && '<' !in line
    ensures PageOf(line) == [Classify(line)]
  {
    SplitWithout(line, '\n');
    NotContainsFirst(line, BoxMarker);
    NotContainsFirst(line, BoxEnd);
    assert [line][..0] == [];
  }

  /** A clean line without a line break or a `<` is drawn with the rule of the line itself. */
  lemma CleanLinePage(line: string)
    requires IsClean(line) && '\n' !in line && '<' !in line
    ensures PageOf(line) == [RuleOf(line)]
  {
    SingleLinePage(line);
    CleanKeepsClean(line);
  }

  /** The divider element spans three lines: empty, "---", empty. */
  lemma DividerLines()
    ensures Split(Divider, '\n') == ["", "---", ""]
  {
    var rule := "---";
    assert Divider == "" + ['\n'] + (rule + ['\n'] + "");
    SplitAround("", rule + ['\n'] + "", '\n');
    SplitAround(rule, "", '\n');
    SplitWithout(rule, '\n');
    SplitWithout("", '\n');
  }

  /** An empty line is drawn as a blank space. */
  lemma EmptyLinePage()
    ensures PageRules([""]) == [Blank]
  {
    CleanLinePage("");
    SplitWithout("", '\n');
  }

  /** A "---" line is drawn as a horizontal rule. */
  lemma RuleLinePage()
    ensures PageRules(["---"]) == [HorizontalRule]
  {
    var rule := "---";
    assert IsClean(rule) && '<' !in rule && '\n' !in rule;
    CleanLinePage(rule);
    SplitWithout(rule, '\n');
    RuleOfExactlyOne(rule);
  }

  /** Three lines are drawn one after the other. */
  lemma ThreeLinePage(a: string, b: string, c: string)
    ensures PageRules([a, b, c]) == PageRules([a]) + PageRules([b]) + PageRules([c])
  {
    PageRulesAppend([a, b], [c]);
    PageRulesAppend([a], [b]);
    assert [a, b] + [c] == [a, b, c];
    assert [a] + [b] == [a, b];
  }

  /** The divider element becomes a horizontal rule between two blank spaces. */
  lemma DividerPage()
    ensures PageOf(Divider) == [Blank, HorizontalRule, Blank]
  {
    DividerLines();
    EmptyLinePage();
    RuleLinePage();
    ThreeLinePage("", "---", "");
  }

  /** Printable ASCII other than `<`: text that survives cleaning and is never taken for a wrapper. */
  predicate Plain(t: string) {
    forall i :: 0 <= i < |t| ==> ' ' <= t[i] <= '~' && t[i] != '<'
  }

  /**
   * Plain text that does not start or end with a space is clean, and it
   * has no line break, no `<` and no sparkle.
   */
  lemma PlainClean(t: string)
    requires Plain(t) && (t != [] ==> t[0] != ' ' && t[|t| - 1] != ' ')
    ensures IsClean(t) && '\n' !in t && '<' !in t && Sparkle[0] !in t
  {
  }

  /** Every title is plain text, checked one title at a time. */
  lemma TitleIsPlain(s: Section)
    ensures Plain(Title(s))
  {
    match s
    case HighlightSection => HighlightTitlePlain();
    case SummarySection => SummaryTitlePlain();
    case FindingsSection => FindingsTitlePlain();
    case AnalysisSection => AnalysisTitlePlain();
    case ViewpointsSection => ViewpointsTitlePlain();
    case ConclusionSection => ConclusionTitlePlain();
    case CitationsSection => CitationsTitlePlain();
  }

  lemma HighlightTitlePlain() ensures Plain(Title(HighlightSection)) {}
  lemma SummaryTitlePlain() ensures Plain(Title(SummarySection)) {}
  lemma FindingsTitlePlain() ensures Plain(Title(FindingsSection)) {}
  lemma AnalysisTitlePlain() ensures Plain(Title(AnalysisSection)) {}
  lemma ViewpointsTitlePlain() ensures Plain(Title(ViewpointsSection)) {}
  lemma ConclusionTitlePlain() ensures Plain(Title(ConclusionSection)) {}
  lemma CitationsTitlePlain() ensures Plain(Title(CitationsSection)) {}

  /** ... not empty, with no space at either end. */
  lemma TitleEdges(s: Section)
    ensures var t := Title(s); t != [] && t[0] != ' ' && t[|t| - 1] != ' '
  {
    match s
    case HighlightSection => assert Title(s) == "Highlighted Finding";
    case SummarySection => assert Title(s) == "Executive Summary";
    case FindingsSection => assert Title(s) == "Key Findings";
    case AnalysisSection => assert Title(s) == "Detailed Analysis";
    case ViewpointsSection => assert Title(s) == "Pros & Cons / Differing Viewpoints";
    case ConclusionSection => assert Title(s) == "Conclusion";
    case CitationsSection => assert Title(s) == "Citations (APA 7th Edition)";
  }

  /** So every title is clean and free of line breaks, markup and sparkles. */
  lemma TitlePlain(s: Section)
    ensures Title(s) != [] && IsClean(Title(s)) && '\n' !in Title(s) && '<' !in Title(s) && Sparkle[0] !in Title(s)
  {
    TitleIsPlain(s);
    TitleEdges(s);
    PlainClean(Title(s));
  }

  /** A marker and a clean, non-empty text on a line of their own give the marker's rule. */
  lemma MarkedLinePage(rule: Rule)
    requires Marker(rule) != "" && IsClean(rule.text) && rule.text != []
    requires '\n' !in rule.text && '<' !in rule.text
    ensures PageOf(Marker(rule) + rule.text) == [rule]
  {
    MarkedReproducible(rule);
    var line := Marker(rule) + rule.text;
    assert '\n' !in line && '<' !in line;
    SingleLinePage(line);
  }

  /**
   * Every heading of a section other than the highlight is a second-level
   * heading showing the section's title.
   */
  lemma HeadingPage(s: Section)
    requires s != HighlightSection
    ensures PageOf(Heading(s)) == [Heading2(Title(s))]
  {
    TitlePlain(s);
    MarkedLinePage(Heading2(Title(s)));
  }

  /** Removing the sparkle from a sparkled third-level heading leaves the heading marker and the text. */
  lemma SparkleRemoved(t: string)
    requires Sparkle[0] !in t
    ensures RemoveAll("### " + Sparkle + t, Sparkle) == "### " + t
  {
    assert "### " + Sparkle + t == "### " + (Sparkle + t);
    RemoveAllKeepsPrefix("### ", Sparkle + t, Sparkle);
    assert (Sparkle + t)[..|Sparkle|] == Sparkle && (Sparkle + t)[|Sparkle|..] == t;
    NotContainsFirst(t, Sparkle);
    RemoveAllAbsent(t, Sparkle);
  }

  /** Cleaning a sparkled third-level heading drops the sparkle and nothing else. */
  lemma SparkleClean(t: string)
    requires IsClean(t) && t != [] && Sparkle[0] !in t
    ensures Clean("### " + Sparkle + t) == "### " + t
  {
    var marked := "### " + t;
    SparkleRemoved(t);
    PrefixedClean("### ", t);
    StripKeepsStripped(marked);
    Latin1ReplaceKeeps(marked);
  }

  /** A cleaned third-level heading line classifies as a third-level heading of its text. */
  lemma Heading3Rule(t: string)
    requires IsClean(t) && t != []
    ensures RuleOf("### " + t) == Heading3(t)
  {
    MarkedReproducible(Heading3(t));
    PrefixedClean("### ", t);
    CleanKeepsClean("### " + t);
  }

  /** A third-level heading with a sparkle before clean text is drawn without the sparkle. */
  lemma SparkleHeadingPage(t: string)
    requires IsClean(t) && t != [] && '\n' !in t && '<' !in t && Sparkle[0] !in t
    ensures PageOf("### " + Sparkle + t) == [Heading3(t)]
  {
    var line := "### " + Sparkle + t;
    SparkleClean(t);
    Heading3Rule(t);
    assert '\n' !in line && '<' !in line;
    SingleLinePage(line);
  }

  /**
   * The highlight heading loses its sparkle: it becomes a third-level
   * heading showing only the section's title.
   */
  lemma HighlightHeadingPage()
    ensures PageOf(Heading(HighlightSection)) == [Heading3(Title(HighlightSection))]
  {
    TitlePlain(HighlightSection);
    SparkleHeadingPage(Title(HighlightSection));
  }

  /**
   * The highlight box is a single line that opens and closes the box, so
   * the walk drops it, finding and all, whenever the finding has no line
   * break.
   */
  lemma HighlightBoxPage(finding: string)
    requires '\n' !in finding
    ensures PageOf(BoxOpen + finding + BoxClose) == []
  {
    var line := BoxOpen + finding + BoxClose;
    assert forall c :: c in line ==> c in BoxOpen || c in finding || c in BoxClose;
    SplitWithout(line, '\n');
    assert line[..|BoxMarker|] == BoxMarker;
    assert IsWrapper(line);
    assert Split(line, '\n')[..0] == [];
  }

  /** A list item free of line breaks, markup and sparkles is drawn as one bullet carrying it. */
  lemma BulletPage(item: string)
    requires IsClean(item) && item != []
    requires '\n' !in item && '<' !in item
    ensures PageOf("* " + item) == [Bullet(item)]
  {
    MarkedLinePage(Bullet(item));
  }

  /** The page of a document that opens with two given elements. */
  lemma LeadingPairPage(first: string, second: string, rest: seq<string>)
    ensures PageOf(Join("\n", [first, second] + rest)) == PageOf(first) + (PageOf(second) + PagesOf(rest))
  {
    var parts := [first, second] + rest;
    assert parts == [first] + ([second] + rest);
    PageOfJoin(parts);
    PagesOfCons(first, [second] + rest);
    PagesOfCons(second, rest);
  }

  /** An element whose page is empty leaves no trace between its neighbours. */
  lemma DropEmptyPage(before: seq<Rule>, dropped: seq<Rule>, after: seq<Rule>)
    requires dropped == []
    ensures before + (dropped + after) == before + after
  {
    assert dropped + after == after;
  }

  /** A page made of an opening run, a middle run and a closing run starts and ends with those runs. */
  lemma PageEnds(first: seq<Rule>, mid: seq<Rule>, last: seq<Rule>)
    ensures var page := first + (mid + last);
            |page| >= |first| + |last| && page[..|first|] == first && page[|page| - |last|..] == last
  {
    var page := first + (mid + last);
    assert page[|page| - |last|..] == (mid + last)[|mid|..];
  }

  /** Dropping the highlighted finding changes no other section. */
  lemma PartWithoutHighlight(r: ResearchReport, s: Section)
    requires s != HighlightSection
    ensures Part(r.(highlightedFinding := None), s) == Part(r, s)
  {
  }

  /** A report with a highlight renders the highlight elements, then what the report without it renders. */
  lemma ElementsWithHighlight(r: ResearchReport)
    requires Present(r, HighlightSection)
    ensures Elements(r) == [Heading(HighlightSection), BoxOpen + r.highlightedFinding.value + BoxClose]
                           + Elements(r.(highlightedFinding := None))
  {
    var plain := r.(highlightedFinding := None);
    PartWithoutHighlight(r, SummarySection);
    PartWithoutHighlight(r, FindingsSection);
    PartWithoutHighlight(r, AnalysisSection);
    PartWithoutHighlight(r, ViewpointsSection);
    PartWithoutHighlight(r, ConclusionSection);
    PartWithoutHighlight(r, CitationsSection);
    assert Part(plain, HighlightSection) == [];
  }

  /** Every section but the highlight and the citations is its heading, its body and the divider. */
  lemma SectionFrame(r: ResearchReport, s: Section)
    requires s != HighlightSection && s != CitationsSection
    ensures var lines := SectionLines(r, s);
            |lines| >= 2 && lines == [Heading(s)] + lines[1..|lines| - 1] + [Divider]
  {
  }

  /**
   * In the page of a report with a highlighted finding, the highlight
   * section shows only its heading: the finding itself is dropped with
   * its box, and the rest of the page is the page of the report without
   * the highlight.
   */
  lemma HighlightDroppedFromPage(r: ResearchReport)
    requires Present(r, HighlightSection) && '\n' !in r.highlightedFinding.value
    ensures var plain := r.(highlightedFinding := None);
            PageOf(Render(r)) == [Heading3(Title(HighlightSection))] + PagesOf(Elements(plain))
  {
    var box := BoxOpen + r.highlightedFinding.value + BoxClose;
    var rest := Elements(r.(highlightedFinding := None));
    assert PageOf(Render(r)) == PageOf(Heading(HighlightSection)) + (PageOf(box) + PagesOf(rest)) by {
      ElementsWithHighlight(r);
      LeadingPairPage(Heading(HighlightSection), box, rest);
    }
    assert PageOf(box) == [] by {
      HighlightBoxPage(r.highlightedFinding.value);
    }
    HighlightHeadingPage();
    DropEmptyPage(PageOf(Heading(HighlightSection)), PageOf(box), PagesOf(rest));
  }


  /**
   * On the page, every section other than the highlight opens
   * with its second-level heading, and every one that the renderer closes
   * with a divider closes with a horizontal rule between blank spaces.
   */
  lemma SectionPage(r: ResearchReport, s: Section)
    requires s != HighlightSection
    ensures var page := PagesOf(SectionLines(r, s));
            && |page| >= 1 && page[0] == Heading2(Title(s))
            && (s != CitationsSection ==> |page| >= 4 && page[|page| - 3..] == [Blank, HorizontalRule, Blank])
  {
    var lines := SectionLines(r, s);
    HeadingPage(s);
    if s == CitationsSection {
      assert lines == [lines[0]] + lines[1..];
      PagesOfCons(lines[0], lines[1..]);
    } else {
      var mid := lines[1..|lines| - 1];
      assert PagesOf(lines) == PageOf(Heading(s)) + (PagesOf(mid) + PageOf(Divider)) by {
        SectionFrame(r, s);
        FramedPage(Heading(s), mid, Divider);
      }
      DividerPage();
      PageEnds(PageOf(Heading(s)), PagesOf(mid), PageOf(Divider));
    }
  }

}
