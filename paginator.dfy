/**
 * The line walk of `create_pdf`: the Markdown is split into lines, the
 * highlight-box wrapper lines are dropped, and every other line is cleaned
 * (the sparkle marker removed, whitespace stripped, non-Latin-1 characters
 * replaced) and classified into exactly one layout rule. The drawing
 * itself (fonts, cells, page breaks, header and footer) is not modelled:
 * a page is the sequence of rules applied.
 */
module Paginator {
  import opened Text

  /** The layout rule applied to one line, with the text it draws. */
  datatype Rule =
    | Blank                   // vertical space of 5
    | Heading1(text: string)  // bold 18
    | Heading2(text: string)  // bold 15
    | Heading3(text: string)  // bold 13
    | Bullet(text: string)    // regular 11, drawn as "  * " + text
    | HorizontalRule          // a 190-wide line, then vertical space of 5
    | Paragraph(text: string) // regular 11

  /** The marker removed from every line before it is classified. */
  const Sparkle := "\U{2728} "
  const BoxMarker := "<div class=\"highlight-box\">"
  const BoxEnd := "</div>"

  /** A line that opens or closes the highlight box is skipped entirely. */
  predicate IsWrapper(line: string) {
    Contains(line, BoxMarker) || Contains(line, BoxEnd)
  }

  /** What a cleaned line looks like: stripped and Latin-1 only. */
  predicate IsClean(s: string) {
    IsStripped(s) && IsLatin1(s)
  }

  /** Removes the sparkle marker, strips, then replaces what Latin-1 cannot encode by `?`. */
  function Clean(line: string): (c: string)
    ensures IsClean(c)
  {
    var s := Strip(RemoveAll(line, Sparkle));
    Latin1ReplaceStripped(s);
    Latin1Replace(s)
  }

  /** Cleaning introduces no line break. */
  lemma CleanNoNewline(line: string)
    requires '\n' !in line
    ensures '\n' !in Clean(line)
  {
    var s := Strip(RemoveAll(line, Sparkle));
    if '\n' in Clean(line) {
      Latin1ReplaceChars(s, '\n');
      StripChars(RemoveAll(line, Sparkle), '\n');
    }
  }

  /** Cleaning a clean line changes nothing. */
  lemma CleanKeepsClean(s: string)
    requires IsClean(s)
    ensures Clean(s) == s
  {
    NotContainsFirst(s, Sparkle);
    RemoveAllAbsent(s, Sparkle);
    StripKeepsStripped(s);
    Latin1ReplaceKeeps(s);
  }

  /** The rule of a line: the rule of its cleaned form. */
  function Classify(line: string): Rule {
    RuleOf(Clean(line))
  }

  /** The rule of a cleaned line, tested in the source's order: empty, "# ", "## ", "### ", "* ", "---", anything else. */
  function RuleOf(c: string): Rule
  {
    if c == "" then Blank
    else if StartsWith(c, "# ") then Heading1(Strip(c[2..]))
    else if StartsWith(c, "## ") then Heading2(Strip(c[3..]))
    else if StartsWith(c, "### ") then Heading3(Strip(c[4..]))
    else if StartsWith(c, "* ") then Bullet(Strip(c[2..]))
    else if Strip(c) == "---" then HorizontalRule
    else Paragraph(Strip(c))
  }

  lemma PrefixChars(s: string, p: string)
    requires StartsWith(s, p)
    ensures forall i :: 0 <= i < |p| ==> s[i] == p[i]
  {
    forall i | 0 <= i < |p| ensures s[i] == p[i] {
      assert s[..|p|][i] == s[i];
    }
  }

  /** No line passes two of the source's tests: the tests exclude one another. */
  lemma MarkersExclusive(c: string)
    ensures StartsWith(c, "# ") ==> !StartsWith(c, "## ") && !StartsWith(c, "### ") && !StartsWith(c, "* ") && c != "---"
    ensures StartsWith(c, "## ") ==> !StartsWith(c, "### ") && !StartsWith(c, "* ") && c != "---"
    ensures StartsWith(c, "### ") ==> !StartsWith(c, "* ") && c != "---"
    ensures StartsWith(c, "* ") ==> c != "---"
  {
    if StartsWith(c, "# ") { PrefixChars(c, "# "); assert c[0] == '#' && c[1] == ' '; }
    if StartsWith(c, "## ") { PrefixChars(c, "## "); assert c[1] == '#' && c[2] == ' '; }
    if StartsWith(c, "### ") { PrefixChars(c, "### "); assert c[0] == '#' && c[2] == '#'; }
    if StartsWith(c, "* ") { PrefixChars(c, "* "); assert c[0] == '*'; }
    if c == "---" { assert c[0] == '-' && c[1] == '-' && c[2] == '-'; }
  }

  /**
   * Every stripped line gets exactly one rule, and each rule's condition is
   * also necessary for it: because the tests exclude one another, the order
   * in which the source applies them does not matter.
   */
  lemma RuleOfExactlyOne(c: string)
    requires IsStripped(c)
    ensures var rule := RuleOf(c);
            && (rule == Blank <==> c == "")
            && (rule.Heading1? <==> StartsWith(c, "# "))
            && (rule.Heading2? <==> StartsWith(c, "## "))
            && (rule.Heading3? <==> StartsWith(c, "### "))
            && (rule.Bullet? <==> StartsWith(c, "* "))
            && (rule == HorizontalRule <==> c == "---")
            && (rule.Paragraph? <==> c != "" && !StartsWith(c, "# ") && !StartsWith(c, "## ")
                                     && !StartsWith(c, "### ") && !StartsWith(c, "* ") && c != "---")
  {
    StripKeepsStripped(c);
    MarkersExclusive(c);
  }

  /** The same, for the rule of a raw line: it is decided by the cleaned line alone. */
  lemma ClassifyExactlyOne(line: string)
    ensures var c := Clean(line);
            var rule := Classify(line);
            && (rule == Blank <==> c == "")
            && (rule.Heading1? <==> StartsWith(c, "# "))
            && (rule.Heading2? <==> StartsWith(c, "## "))
            && (rule.Heading3? <==> StartsWith(c, "### "))
            && (rule.Bullet? <==> StartsWith(c, "* "))
            && (rule == HorizontalRule <==> c == "---")
            && (rule.Paragraph? <==> c != "" && !StartsWith(c, "# ") && !StartsWith(c, "## ")
                                     && !StartsWith(c, "### ") && !StartsWith(c, "* ") && c != "---")
  {
    RuleOfExactlyOne(Clean(line));
  }

  /** The rest of a clean line after a marker that ends in a space is clean and not empty. */
  lemma MarkerRest(c: string, k: nat)
    requires IsClean(c) && 1 <= k <= |c| && c[k - 1] == ' '
    ensures var t := Strip(c[k..]);
            && IsClean(t) && t != []
            && ('\n' in t ==> '\n' in c)
  {
    var rest := c[k..];
    var t := Strip(rest);
    var lo := |rest| - |TrimStart(rest)|;
    StripSlice(rest);
    assert !IsSpace(c[|c| - 1]);
    assert IsSpace(c[k - 1]);
    assert k < |c|;
    assert rest[|rest| - 1] == c[|c| - 1];
    forall i | 0 <= i < |t| ensures t[i] as int <= 255 {
      assert t[i] == c[k + lo + i];
    }
    if '\n' in t {
      StripChars(rest, '\n');
    }
  }

  /** The marker that opens the line of a heading or bullet rule; empty for the other rules. */
  function Marker(rule: Rule): string {
    match rule
    case Heading1(_) => "# "
    case Heading2(_) => "## "
    case Heading3(_) => "### "
    case Bullet(_) => "* "
    case _ => ""
  }

  /** A heading or bullet carries the stripped rest of its line after the marker: clean and never empty. */
  lemma MarkedText(c: string)
    requires IsClean(c) && Marker(RuleOf(c)) != ""
    ensures var rule := RuleOf(c);
            && StartsWith(c, Marker(rule))
            && rule.text == Strip(c[|Marker(rule)|..])
            && IsClean(rule.text) && rule.text != []
  {
    match RuleOf(c)
    case Heading1(_) => MarkerRestOf(c, "# ");
    case Heading2(_) => MarkerRestOf(c, "## ");
    case Heading3(_) => MarkerRestOf(c, "### ");
    case Bullet(_) => MarkerRestOf(c, "* ");
  }

  lemma MarkerRestOf(c: string, marker: string)
    requires IsClean(c) && StartsWith(c, marker) && marker != [] && marker[|marker| - 1] == ' '
    ensures var t := Strip(c[|marker|..]);
            && IsClean(t) && t != []
            && ('\n' in t ==> '\n' in c)
  {
    assert c[|marker| - 1] == c[..|marker|][|marker| - 1];
    MarkerRest(c, |marker|);
  }

  /** A paragraph carries the whole cleaned line, which is not empty. */
  lemma ParagraphText(c: string)
    requires IsClean(c) && RuleOf(c).Paragraph?
    ensures RuleOf(c).text == c && c != []
  {
    StripKeepsStripped(c);
  }

  /** The line a rule would be drawn from. */
  function Serialize(rule: Rule): string {
    match rule
    case Blank => ""
    case Heading1(t) => "# " + t
    case Heading2(t) => "## " + t
    case Heading3(t) => "### " + t
    case Bullet(t) => "* " + t
    case HorizontalRule => "---"
    case Paragraph(t) => t
  }

  /** Classifying the serialized form of a rule gives the rule back. */
  ghost predicate Reproducible(rule: Rule) {
    Classify(Serialize(rule)) == rule
  }

  /** A marker followed by clean non-empty text is a clean line. */
  lemma PrefixedClean(marker: string, t: string)
    requires marker != [] && !IsSpace(marker[0]) && IsLatin1(marker)
    requires IsClean(t) && t != []
    ensures IsClean(marker + t)
  {
    var x := marker + t;
    assert x[|x| - 1] == t[|t| - 1];
    forall i | 0 <= i < |x| ensures x[i] as int <= 255 {
      if i >= |marker| { assert x[i] == t[i - |marker|]; }
    }
  }

  /** Re-classifying the line of a heading or bullet rule gives the rule back. */
  lemma MarkedReproducible(rule: Rule)
    requires Marker(rule) != ""
    requires IsClean(rule.text) && rule.text != []
    ensures Serialize(rule) == Marker(rule) + rule.text
    ensures Reproducible(rule)
  {
    var marker, t := Marker(rule), rule.text;
    var x := marker + t;
    assert Classify(x) == RuleOf(x) by {
      PrefixedClean(marker, t);
      CleanKeepsClean(x);
    }
    assert StartsWith(x, marker) && x[|marker|..] == t;
    StripKeepsStripped(t);
    MarkersExclusive(x);
  }

  /** The rule of a clean line survives a round trip through its serialized line. */
  lemma RuleOfReproducible(c: string)
    requires IsClean(c)
    ensures Reproducible(RuleOf(c))
  {
    var rule := RuleOf(c);
    if Marker(rule) != "" {
      MarkedText(c);
      MarkedReproducible(rule);
    } else if rule.Paragraph? {
      ParagraphText(c);
      CleanKeepsClean(c);
    } else if rule == HorizontalRule {
      RuleOfExactlyOne(c);
      CleanKeepsClean("---");
    } else {
      RuleOfExactlyOne(c);
      CleanKeepsClean("");
    }
  }

  /** The serialized line of a clean line's rule has a line break only if the line had one. */
  lemma RuleOfNoNewline(c: string)
    requires IsClean(c) && '\n' !in c
    ensures '\n' !in Serialize(RuleOf(c))
  {
    var rule := RuleOf(c);
    if Marker(rule) != "" {
      MarkedText(c);
      if '\n' in rule.text { StripChars(c[|Marker(rule)|..], '\n'); }
    } else if rule.Paragraph? {
      ParagraphText(c);
    }
  }

  /**
   * Every rule the classifier produces survives a round trip through its
   * serialized line: re-classifying it gives the same rule.
   */
  lemma ClassifyReproducible(line: string)
    ensures Reproducible(Classify(line))
    ensures '\n' !in line ==> '\n' !in Serialize(Classify(line))
  {
    var c := Clean(line);
    RuleOfReproducible(c);
    if '\n' !in line {
      CleanNoNewline(line);
      RuleOfNoNewline(c);
    }
  }

  // ---------------------------------------------------------------- pages

  /**
   * The walk over the lines with a given classifier: wrapper lines are
   * skipped, every other line gives one rule, in order.
   */
  function Walk(lines: seq<string>, classify: string -> Rule): (page: seq<Rule>)
    ensures |page| <= |lines|
  {
    if lines == [] then []
    else
      var last := lines[|lines| - 1];
      Walk(lines[..|lines| - 1], classify) + (if IsWrapper(last) then [] else [classify(last)])
  }

  /** The walk over consecutive runs of lines is the concatenation of the walks. */
  lemma {:induction false} WalkAppend(a: seq<string>, b: seq<string>, classify: string -> Rule)
    ensures Walk(a + b, classify) == Walk(a, classify) + Walk(b, classify)
    decreases |b|
  {
    if b == [] {
      assert a + b == a;
    } else {
      var ab, init := a + b, b[..|b| - 1];
      assert ab[..|ab| - 1] == a + init;
      assert ab[|ab| - 1] == b[|b| - 1];
      WalkAppend(a, init, classify);
    }
  }

  /** The rules of a sequence of lines. */
  function PageRules(lines: seq<string>): seq<Rule> {
    Walk(lines, Classify)
  }

  /** The page of a Markdown document. */
  function PageOf(markdown: string): seq<Rule> {
    PageRules(Split(markdown, '\n'))
  }

  /** Walks the lines once, appending the rule of every line that is not a wrapper. */
  method Paginate(markdown: string) returns (page: seq<Rule>)
    ensures page == PageOf(markdown)
  {
    var lines := Split(markdown, '\n');
    page := [];
    for i := 0 to |lines|
      invariant page == PageRules(lines[..i])
    {
      var line := lines[i];
      if !IsWrapper(line) {
        page := page + [Classify(line)];
      }
      assert lines[..i + 1][..i] == lines[..i];
    }
    assert lines[..|lines|] == lines;
  }

  /** One line per rule, in order. */
  function SerializeAll(page: seq<Rule>): (lines: seq<string>)
    ensures |lines| == |page|
    ensures forall k :: 0 <= k < |page| ==> lines[k] == Serialize(page[k])
  {
    if page == [] then []
    else SerializeAll(page[..|page| - 1]) + [Serialize(page[|page| - 1])]
  }

  /** The page written back out as plain text. */
  function PageText(page: seq<Rule>): string {
    Join("\n", SerializeAll(page))
  }

  /** Whether `rule` is what `classify` makes of one of the lines that the walk does not skip. */
  ghost predicate DrawnFrom(lines: seq<string>, classify: string -> Rule, rule: Rule) {
    exists j :: 0 <= j < |lines| && !IsWrapper(lines[j]) && rule == classify(lines[j])
  }

  /** Every rule of a walk is the rule of one of the lines the walk keeps. */
  lemma {:induction false} WalkOrigin(lines: seq<string>, classify: string -> Rule)
    ensures forall k :: 0 <= k < |Walk(lines, classify)| ==> DrawnFrom(lines, classify, Walk(lines, classify)[k])
  {
    if lines != [] {
      var init, last := lines[..|lines| - 1], lines[|lines| - 1];
      var front := Walk(init, classify);
      var page := Walk(lines, classify);
      assert page == front + (if IsWrapper(last) then [] else [classify(last)]);
      WalkOrigin(init, classify);
      forall k | 0 <= k < |page|
        ensures DrawnFrom(lines, classify, page[k])
      {
        if k < |front| {
          assert DrawnFrom(init, classify, front[k]);
          var j :| 0 <= j < |init| && !IsWrapper(init[j]) && front[k] == classify(init[j]);
          assert lines[j] == init[j];
        } else {
          assert !IsWrapper(lines[|lines| - 1]) && page[k] == classify(lines[|lines| - 1]);
        }
      }
    } else {
      assert Walk(lines, classify) == [];
    }
  }


  /** The rules of newline-free lines are reproducible and serialize without newlines. */
  lemma PageRulesReproducible(lines: seq<string>)
    requires forall j :: 0 <= j < |lines| ==> '\n' !in lines[j]
    ensures forall k :: 0 <= k < |PageRules(lines)| ==>
              Reproducible(PageRules(lines)[k]) && '\n' !in Serialize(PageRules(lines)[k])
  {
    var page := PageRules(lines);
    forall k | 0 <= k < |page| ensures Reproducible(page[k]) && '\n' !in Serialize(page[k]) {
      WalkOrigin(lines, Classify);
      assert DrawnFrom(lines, Classify, page[k]);
      var j :| 0 <= j < |lines| && !IsWrapper(lines[j]) && page[k] == Classify(lines[j]);
      ClassifyReproducible(lines[j]);
    }
  }

  /** Lines that are not wrappers and re-classify to their rules give back the page. */
  lemma {:induction false} Reclassify(page: seq<Rule>)
    requires forall k :: 0 <= k < |page| ==> Reproducible(page[k]) && !IsWrapper(Serialize(page[k]))
    ensures PageRules(SerializeAll(page)) == page
  {
    if page != [] {
      var lines := SerializeAll(page);
      assert lines[..|lines| - 1] == SerializeAll(page[..|page| - 1]);
      Reclassify(page[..|page| - 1]);
      assert page == page[..|page| - 1] + [page[|page| - 1]];
    }
  }

  /**
   * Re-paginating the plain-text form of a page gives the same page, as
   * long as the page is not empty and no rule's line happens to look like
   * a highlight-box wrapper (removing the sparkle marker can create one).
   */
  lemma RepaginationStable(markdown: string)
    requires PageOf(markdown) != []
    requires forall k :: 0 <= k < |PageOf(markdown)| ==> !IsWrapper(Serialize(PageOf(markdown)[k]))
    ensures PageOf(PageText(PageOf(markdown))) == PageOf(markdown)
  {
    var page := PageOf(markdown);
    PageRulesReproducible(Split(markdown, '\n'));
    var lines := SerializeAll(page);
    SplitJoin(lines, '\n');
    Reclassify(page);
  }
}
