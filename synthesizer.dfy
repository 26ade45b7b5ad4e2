/**
 * The prompt of `generate_report`: the fixed instruction block with the
 * tone directive appended, followed by the query, a label and the
 * collected source text, as four separate parts. The language-model call
 * and the JSON decoding of its reply are not modelled.
 */
module Synthesizer {
  import opened Text

  /** The fixed instruction block sent before everything else. */
  const MasterPrompt: string :=
    "\n" + "You are a world-class AI research analyst. Your task is to produce a high-quality, multi-faceted research report by populating a structured JSON object. Analyze the user's query and the provided web content to do this."
    + "\n\n" + "**Instructions:**"
    + "\n" + "-   **Highlight:** First, identify the single most impactful, surprising, or recent finding from the content. Populate the 'highlighted_finding' field with this insight. It must be a concise, direct statement."
    + "\n" + "-   **Analyze:** Carefully analyze all provided content, which includes full article text and metadata. Synthesize information critically and objectively."
    + "\n" + "-   **Cite Rigorously:** For each point in 'key_findings', 'detailed_analysis', and 'differing_viewpoints', you MUST cite the source number in parentheses, like this: (Source 1)."
    + "\n" + "-   **Format Citations:** Populate the 'citations' array with APA 7th Edition formatted citations for all sources. Use the provided metadata for this."
    + "\n" + "-   **Use Tables:** If the content allows for a direct comparison, embed a Markdown table within the 'detailed_analysis' string."
    + "\n" + "-   **Handle Viewpoints:** If pros and cons are not applicable, return empty arrays for them."
    + "\n"

  const TonePrefix := "\n**Tone Requirement:** The tone of the entire report must be **"
  const ToneSuffix := "**."
  const QueryPrefix := "**User Query:** "
  const ContentLabel := "**Research Content:**"

  /** An instruction block followed by the directive for the chosen tone. */
  function TonedPrompt(instructions: string, tone: string): string {
    instructions + TonePrefix + (tone + ToneSuffix)
  }

  /**
   * The four prompt parts, in the order they are sent, for a given
   * instruction block: the block with the tone directive, the query, the
   * content label, and the collected source text.
   */
  function PromptParts(instructions: string, query: string, researchData: string, tone: string): (parts: seq<string>)
    ensures |parts| == 4
    ensures parts[0] == instructions + TonePrefix + tone + ToneSuffix
    ensures StartsWith(parts[0], instructions + TonePrefix)
    ensures parts[1] == QueryPrefix + query
    ensures parts[2] == ContentLabel
    ensures parts[3] == researchData
  {
    AppendSlices(instructions + TonePrefix, tone + ToneSuffix);
    [TonedPrompt(instructions, tone), QueryPrefix + query, ContentLabel, researchData]
  }

  /** The prompt `generate_report` sends: the parts built on the fixed instruction block. */
  function ReportPrompt(query: string, researchData: string, tone: string): seq<string> {
    PromptParts(MasterPrompt, query, researchData, tone)
  }

  /** Reads the tone back out of the first prompt part: what lies between the tone prefix and the closing marker. */
  function ToneOf(instructions: string, first: string): string
    requires StartsWith(first, instructions + TonePrefix)
    requires |first| - |instructions + TonePrefix| >= |ToneSuffix|
  {
    var rest := first[|instructions + TonePrefix|..];
    rest[..|rest| - |ToneSuffix|]
  }

  /** Reads the query back out of the second prompt part. */
  function QueryOf(second: string): string
    requires StartsWith(second, QueryPrefix)
  {
    second[|QueryPrefix|..]
  }

  /**
   * The prompt loses nothing: the tone and the query can be read back
   * from it, and the collected source text, with its "Source n" numbering,
   * is passed on unchanged.
   */
  lemma PromptRoundTrip(instructions: string, query: string, researchData: string, tone: string)
    ensures var parts := PromptParts(instructions, query, researchData, tone);
            && StartsWith(parts[0], instructions + TonePrefix)
            && |parts[0]| - |instructions + TonePrefix| >= |ToneSuffix|
            && ToneOf(instructions, parts[0]) == tone
            && parts[0][|parts[0]| - |ToneSuffix|..] == ToneSuffix
            && StartsWith(parts[1], QueryPrefix)
            && QueryOf(parts[1]) == query
            && parts[3] == researchData
  {
    AppendSlices(instructions + TonePrefix, tone + ToneSuffix);
    AppendSlices(tone, ToneSuffix);
    AppendSlices(QueryPrefix, query);
  }
}
