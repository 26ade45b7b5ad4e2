/**
 * The report renderer of `render_report_from_json`: turns the structured
 * report into Markdown. Sections are emitted only for populated fields, in
 * a fixed order, each list item as one "* " line, a divider element after
 * every populated section except the highlight and the citations, and the
 * elements joined with newlines.
 */
module Renderer {
  import opened Wrappers
  import opened Text

  /** The pros and cons block; a missing list is the empty list. */
  datatype Viewpoints = Viewpoints(pros: seq<string>, cons: seq<string>)

  /**
   * The structured report. An empty string or list, like `None`, means the
   * field is absent (Python truthiness).
   */
  datatype ResearchReport = ResearchReport(
    highlightedFinding: Option<string>,
    executiveSummary: string,
    keyFindings: seq<string>,
    detailedAnalysis: string,
    differingViewpoints: Option<Viewpoints>,
    conclusion: string,
    citations: seq<string>)

  /** The sections of a report, in the order they are rendered. */
  datatype Section =
    | HighlightSection | SummarySection | FindingsSection | AnalysisSection
    | ViewpointsSection | ConclusionSection | CitationsSection

  const SectionOrder: seq<Section> := [
    HighlightSection, SummarySection, FindingsSection, AnalysisSection,
    ViewpointsSection, ConclusionSection, CitationsSection]

  /** A section's position in the fixed order. */
  function Rank(s: Section): nat {
    match s
    case HighlightSection => 0
    case SummarySection => 1
    case FindingsSection => 2
    case AnalysisSection => 3
    case ViewpointsSection => 4
    case ConclusionSection => 5
    case CitationsSection => 6
  }

  /** The element emitted after a section to separate it from the next. */
  const Divider := "\n---\n"
  const BoxOpen := "<div class=\"highlight-box\">"
  const BoxClose := "</div>"

  /** The words of each section's heading. */
  function Title(s: Section): string {
    match s
    case HighlightSection => "Highlighted Finding"
    case SummarySection => "Executive Summary"
    case FindingsSection => "Key Findings"
    case AnalysisSection => "Detailed Analysis"
    case ViewpointsSection => "Pros & Cons / Differing Viewpoints"
    case ConclusionSection => "Conclusion"
    case CitationsSection => "Citations (APA 7th Edition)"
  }

  /**
   * The first element of each section: a third-level heading with a
   * sparkle for the highlight, a second-level heading for the others.
   */
  function Heading(s: Section): string {
    if s == HighlightSection then "### " + "\U{2728} " + Title(s) else "## " + Title(s)
  }

  /** Whether the field behind a section is truthy, so that the section is rendered. */
  predicate Present(r: ResearchReport, s: Section) {
    match s
    case HighlightSection => r.highlightedFinding.Some? && r.highlightedFinding.value != ""
    case SummarySection => r.executiveSummary != ""
    case FindingsSection => r.keyFindings != []
    case AnalysisSection => r.detailedAnalysis != ""
    case ViewpointsSection =>
      r.differingViewpoints.Some? && (r.differingViewpoints.value.pros != [] || r.differingViewpoints.value.cons != [])
    case ConclusionSection => r.conclusion != ""
    case CitationsSection => r.citations != []
  }

  /** One "* item" line per item, in order. */
  function Bullets(items: seq<string>): (lines: seq<string>)
    ensures |lines| == |items|
    ensures forall k :: 0 <= k < |items| ==> lines[k] == "* " + items[k]
  {
    if items == [] then []
    else Bullets(items[..|items| - 1]) + ["* " + items[|items| - 1]]
  }

  /** The pros and cons sub-lists, each with its sub-heading and only when non-empty. */
  function ViewpointLines(v: Viewpoints): seq<string> {
    (if v.pros != [] then ["### Pros"] + Bullets(v.pros) else [])
    + (if v.cons != [] then ["### Cons"] + Bullets(v.cons) else [])
  }

  /** The elements of a section when it is rendered. */
  function SectionLines(r: ResearchReport, s: Section): (lines: seq<string>)
    ensures lines != [] && lines[0] == Heading(s)
  {
    match s
    case HighlightSection => [Heading(s), BoxOpen + r.highlightedFinding.GetOr("") + BoxClose]
    case SummarySection => [Heading(s), r.executiveSummary, Divider]
    case FindingsSection => [Heading(s)] + Bullets(r.keyFindings) + [Divider]
    case AnalysisSection => [Heading(s), r.detailedAnalysis, Divider]
    case ViewpointsSection =>
      [Heading(s)] + ViewpointLines(r.differingViewpoints.GetOr(Viewpoints([], []))) + [Divider]
    case ConclusionSection => [Heading(s), r.conclusion, Divider]
    case CitationsSection => [Heading(s)] + Bullets(r.citations)
  }

  /** The elements a section contributes: its lines when present, nothing otherwise. */
  function Part(r: ResearchReport, s: Section): seq<string> {
    if Present(r, s) then SectionLines(r, s) else []
  }

  /** The Markdown elements of the report, section by section in the fixed order. */
  function Elements(r: ResearchReport): seq<string> {
    Part(r, HighlightSection) + (Part(r, SummarySection) + (Part(r, FindingsSection)
    + (Part(r, AnalysisSection) + (Part(r, ViewpointsSection) + (Part(r, ConclusionSection)
    + Part(r, CitationsSection))))))
  }

  /** The rendered Markdown document. */
  function Render(r: ResearchReport): string {
    Join("\n", Elements(r))
  }

  // ---------------------------------------------------------------- the outline view

  /** The sections of `ss` that the report populates, in the order of `ss`. */
  function Keep(r: ResearchReport, ss: seq<Section>): seq<Section> {
    if ss == [] then []
    else (if Present(r, ss[0]) then [ss[0]] else []) + Keep(r, ss[1..])
  }

  /** The sections the report renders, in rendering order. */
  function Outline(r: ResearchReport): seq<Section> {
    Keep(r, SectionOrder)
  }

  /** The lines of the given sections, one after the other. */
  function Flatten(r: ResearchReport, ss: seq<Section>): seq<string> {
    if ss == [] then [] else SectionLines(r, ss[0]) + Flatten(r, ss[1..])
  }

  /** The contributions of the given sections, present or not, one after the other. */
  function Emit(r: ResearchReport, ss: seq<Section>): seq<string> {
    if ss == [] then [] else Part(r, ss[0]) + Emit(r, ss[1..])
  }

  lemma {:induction false} KeepMembers(r: ResearchReport, ss: seq<Section>, s: Section)
    ensures s in Keep(r, ss) <==> s in ss && Present(r, s)
  {
    if ss != [] {
      KeepMembers(r, ss[1..], s);
      assert ss == [ss[0]] + ss[1..];
    }
  }

  ghost predicate RankIncreasing(ss: seq<Section>) {
    forall i, j :: 0 <= i < j < |ss| ==> Rank(ss[i]) < Rank(ss[j])
  }

  lemma {:induction false} KeepIncreasing(r: ResearchReport, ss: seq<Section>)
    requires RankIncreasing(ss)
    ensures RankIncreasing(Keep(r, ss))
  {
    if ss != [] {
      KeepIncreasing(r, ss[1..]);
      var rest := Keep(r, ss[1..]);
      forall k | 0 <= k < |rest|
        ensures Rank(ss[0]) < Rank(rest[k])
      {
        KeepMembers(r, ss[1..], rest[k]);
        var j :| 0 <= j < |ss[1..]| && ss[1..][j] == rest[k];
        assert ss[j + 1] == rest[k];
      }
    }
  }

  lemma {:induction false} FlattenKeep(r: ResearchReport, ss: seq<Section>)
    ensures Flatten(r, Keep(r, ss)) == Emit(r, ss)
  {
    if ss != [] {
      FlattenKeep(r, ss[1..]);
      var rest := Keep(r, ss[1..]);
      if Present(r, ss[0]) {
        assert Keep(r, ss) == [ss[0]] + rest;
        assert ([ss[0]] + rest)[0] == ss[0];
        assert ([ss[0]] + rest)[1..] == rest;
        assert Flatten(r, Keep(r, ss)) == SectionLines(r, ss[0]) + Flatten(r, rest);
      } else {
        assert Keep(r, ss) == rest;
        assert Emit(r, ss) == Emit(r, ss[1..]);
      }
    }
  }

  /** The sections in the fixed order, as successive tails. */
  lemma OrderTails()
    ensures SectionOrder[1..] == [SummarySection, FindingsSection, AnalysisSection, ViewpointsSection, ConclusionSection, CitationsSection]
    ensures SectionOrder[2..] == [FindingsSection, AnalysisSection, ViewpointsSection, ConclusionSection, CitationsSection]
    ensures SectionOrder[3..] == [AnalysisSection, ViewpointsSection, ConclusionSection, CitationsSection]
    ensures SectionOrder[4..] == [ViewpointsSection, ConclusionSection, CitationsSection]
    ensures SectionOrder[5..] == [ConclusionSection, CitationsSection]
    ensures SectionOrder[6..] == [CitationsSection]
    ensures SectionOrder[7..] == []
  {
  }

  /** Every section has its place in the order... */
  lemma OrderComplete(s: Section)
    ensures s in SectionOrder && SectionOrder[Rank(s)] == s
  {
  }

  /** ... and the order lists the sections by increasing rank. */
  lemma OrderIncreasing()
    ensures RankIncreasing(SectionOrder)
  {
    forall i, j | 0 <= i < j < |SectionOrder|
      ensures Rank(SectionOrder[i]) < Rank(SectionOrder[j])
    {
      assert Rank(SectionOrder[i]) == i && Rank(SectionOrder[j]) == j;
    }
  }

  lemma EmitCons(r: ResearchReport, s: Section, ss: seq<Section>)
    ensures Emit(r, [s] + ss) == Part(r, s) + Emit(r, ss)
  {
    assert ([s] + ss)[1..] == ss;
  }

  lemma EmitInOrder(r: ResearchReport)
    ensures Emit(r, SectionOrder) == Elements(r)
  {
    var t6 := [CitationsSection];
    var t5 := [ConclusionSection] + t6;
    var t4 := [ViewpointsSection] + t5;
    var t3 := [AnalysisSection] + t4;
    var t2 := [FindingsSection] + t3;
    var t1 := [SummarySection] + t2;
    var t0 := [HighlightSection] + t1;
    assert t0 == SectionOrder;
    assert Emit(r, t6) == Part(r, CitationsSection) by {
      EmitCons(r, CitationsSection, []);
      assert [CitationsSection] + [] == t6;
    }
    assert Emit(r, t5) == Part(r, ConclusionSection) + Emit(r, t6) by { EmitCons(r, ConclusionSection, t6); }
    assert Emit(r, t4) == Part(r, ViewpointsSection) + Emit(r, t5) by { EmitCons(r, ViewpointsSection, t5); }
    assert Emit(r, t3) == Part(r, AnalysisSection) + Emit(r, t4) by { EmitCons(r, AnalysisSection, t4); }
    assert Emit(r, t2) == Part(r, FindingsSection) + Emit(r, t3) by { EmitCons(r, FindingsSection, t3); }
    assert Emit(r, t1) == Part(r, SummarySection) + Emit(r, t2) by { EmitCons(r, SummarySection, t2); }
    assert Emit(r, t0) == Part(r, HighlightSection) + Emit(r, t1) by { EmitCons(r, HighlightSection, t1); }
  }

  /**
   * The rendered elements are exactly the populated sections, each
   * starting with its heading, in the fixed order: a section appears if
   * and only if its field is truthy, and a section of lower rank always
   * comes first.
   */
  lemma SectionsInOrder(r: ResearchReport)
    ensures Elements(r) == Flatten(r, Outline(r))
    ensures forall s :: s in Outline(r) <==> Present(r, s)
    ensures forall i, j :: 0 <= i < j < |Outline(r)| ==> Rank(Outline(r)[i]) < Rank(Outline(r)[j])
  {
    EmitInOrder(r);
    FlattenKeep(r, SectionOrder);
    forall s ensures s in Outline(r) <==> Present(r, s) {
      KeepMembers(r, SectionOrder, s);
      OrderComplete(s);
    }
    OrderIncreasing();
    KeepIncreasing(r, SectionOrder);
  }

  /**
   * Every populated section except the highlight and the citations ends
   * with the divider element; those two end with their last line of content.
   */
  lemma DividerAfterSection(r: ResearchReport, s: Section)
    requires Present(r, s)
    ensures var lines := SectionLines(r, s);
            lines[|lines| - 1] == Divider <==> s != HighlightSection && s != CitationsSection
  {
    var lines := SectionLines(r, s);
    if s == HighlightSection {
      assert lines[|lines| - 1][0] == '<';
    } else if s == CitationsSection {
      assert lines[|lines| - 1] == "* " + r.citations[|r.citations| - 1];
      assert lines[|lines| - 1][0] == '*';
    }
  }

  /**
   * The pros & cons section lists the pros under their sub-heading, then
   * the cons under theirs, each sub-list only when it is non-empty.
   */
  lemma ViewpointsLayout(r: ResearchReport)
    requires Present(r, ViewpointsSection)
    ensures var v := r.differingViewpoints.value;
            var lines := SectionLines(r, ViewpointsSection);
            && |lines| == 2 + (if v.pros != [] then 1 + |v.pros| else 0) + (if v.cons != [] then 1 + |v.cons| else 0)
            && (v.pros != [] ==> lines[1] == "### Pros" && forall k :: 0 <= k < |v.pros| ==> lines[2 + k] == "* " + v.pros[k])
            && (v.pros == [] ==> lines[1] == "### Cons")
            && (v.cons != [] ==> var at := |lines| - 2 - |v.cons|;
                                   lines[at] == "### Cons"
                                   && forall k :: 0 <= k < |v.cons| ==> lines[at + 1 + k] == "* " + v.cons[k])
  {
  }

  /**
   * A report whose highlight and differing viewpoints are absent or
   * empty, and whose other fields are populated, renders exactly five
   * sections.
   */
  lemma FiveSectionReport(r: ResearchReport)
    requires !Present(r, HighlightSection) && !Present(r, ViewpointsSection)
    requires r.executiveSummary != "" && r.keyFindings != [] && r.detailedAnalysis != ""
    requires r.conclusion != "" && r.citations != []
    ensures Outline(r) == [SummarySection, FindingsSection, AnalysisSection, ConclusionSection, CitationsSection]
  {
    var order := SectionOrder;
    OrderTails();
    assert Keep(r, order[6..]) == [CitationsSection];
    assert Keep(r, order[5..]) == [ConclusionSection, CitationsSection];
    assert Keep(r, order[4..]) == Keep(r, order[5..]);
    assert Keep(r, order[3..]) == [AnalysisSection] + Keep(r, order[4..]);
    assert Keep(r, order[2..]) == [FindingsSection] + Keep(r, order[3..]);
    assert Keep(r, order[1..]) == [SummarySection] + Keep(r, order[2..]);
    assert Keep(r, order) == Keep(r, order[1..]);
  }

  // ---------------------------------------------------------------- the renderer

  /** Appends one "* item" element per item. */
  method AppendBullets(md: seq<string>, items: seq<string>) returns (out: seq<string>)
    ensures out == md + Bullets(items)
  {
    out := md;
    for i := 0 to |items|
      invariant out == md + Bullets(items[..i])
    {
      out := out + ["* " + items[i]];
      assert items[..i + 1][..i] == items[..i];
    }
    assert items[..|items|] == items;
  }

  /** Appends the highlight heading and the boxed finding when there is a finding. */
  method AppendHighlight(md: seq<string>, r: ResearchReport) returns (out: seq<string>)
    ensures out == md + Part(r, HighlightSection)
  {
    out := md;
    if r.highlightedFinding.Some? && r.highlightedFinding.value != "" {
      out := out + [Heading(HighlightSection)];
      out := out + [BoxOpen + r.highlightedFinding.value + BoxClose];
    }
  }

  /** Appends the heading, the text and the divider of a prose section when its text is not empty. */
  method AppendProse(md: seq<string>, r: ResearchReport, s: Section) returns (out: seq<string>)
    requires s == SummarySection || s == AnalysisSection || s == ConclusionSection
    ensures out == md + Part(r, s)
  {
    var text := if s == SummarySection then r.executiveSummary
                else if s == AnalysisSection then r.detailedAnalysis
                else r.conclusion;
    out := md;
    if text != "" {
      out := out + [Heading(s)];
      out := out + [text];
      out := out + [Divider];
    }
  }

  /**
   * Appends the heading and one bullet per item of a list section when
   * its list is not empty; the key findings are closed by a divider, the
   * citations are not.
   */
  method AppendList(md: seq<string>, r: ResearchReport, s: Section) returns (out: seq<string>)
    requires s == FindingsSection || s == CitationsSection
    ensures out == md + Part(r, s)
  {
    var items := if s == FindingsSection then r.keyFindings else r.citations;
    out := md;
    if items != [] {
      out := out + [Heading(s)];
      out := AppendBullets(out, items);
      if s == FindingsSection {
        out := out + [Divider];
      }
    }
  }

  /** Appends the pros and cons section when either list is not empty. */
  method AppendViewpoints(md: seq<string>, r: ResearchReport) returns (out: seq<string>)
    ensures out == md + Part(r, ViewpointsSection)
  {
    out := md;
    var viewpoints := r.differingViewpoints;
    if viewpoints.Some? && (viewpoints.value.pros != [] || viewpoints.value.cons != []) {
      out := out + [Heading(ViewpointsSection)];
      if viewpoints.value.pros != [] {
        out := out + ["### Pros"];
        out := AppendBullets(out, viewpoints.value.pros);
      }
      if viewpoints.value.cons != [] {
        out := out + ["### Cons"];
        out := AppendBullets(out, viewpoints.value.cons);
      }
      out := out + [Divider];
    }
  }

  /** Appending seven blocks one by one gives their concatenation. */
  lemma Reassociate<T>(p1: seq<T>, p2: seq<T>, p3: seq<T>, p4: seq<T>, p5: seq<T>, p6: seq<T>, p7: seq<T>)
    ensures p1 + p2 + p3 + p4 + p5 + p6 + p7 == p1 + (p2 + (p3 + (p4 + (p5 + (p6 + p7)))))
  {
  }

  /** Builds the element list section by section, in the fixed order, and joins it with newlines. */
  method RenderReport(r: ResearchReport) returns (markdown: string)
    ensures markdown == Render(r)
  {
    var md := AppendHighlight([], r);
    assert md == Part(r, HighlightSection);
    md := AppendProse(md, r, SummarySection);
    md := AppendList(md, r, FindingsSection);
    md := AppendProse(md, r, AnalysisSection);
    md := AppendViewpoints(md, r);
    md := AppendProse(md, r, ConclusionSection);
    md := AppendList(md, r, CitationsSection);
    Reassociate(Part(r, HighlightSection), Part(r, SummarySection), Part(r, FindingsSection), Part(r, AnalysisSection),
                Part(r, ViewpointsSection), Part(r, ConclusionSection), Part(r, CitationsSection));
    markdown := Join("\n", md);
  }
}
