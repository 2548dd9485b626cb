/**
  The document exporter (hooks/usePdfExporter.ts): escaping of free text, the
  markup for lists and for the glossary, the report template, the file name
  derived from the subject, and the guard on the rendering library.
 */
module PdfExporter {
  import opened Text
  import opened Types

  // ---------------------------------------------------------------------------
  // Escaping
  // ---------------------------------------------------------------------------

  /**
    `sanitize`: the empty string stays empty; otherwise every `<` becomes
    `&lt;` and then every `>` becomes `&gt;`, in two global replacements.
   */
  function Sanitize(text: string): (r: string)
    ensures '<' !in r && '>' !in r
    ensures text == "" ==> r == ""
  {
    if text == "" then ""
    else
      ReplaceAllKeepsOthers(ReplaceAll(text, '<', "&lt;"), '>', "&gt;", '<');
      ReplaceAll(ReplaceAll(text, '<', "&lt;"), '>', "&gt;")
  }

  /** The escape of a single character, the reference for `Sanitize`. */
  function Escape(c: char): (r: string)
  {
    if c == '<' then "&lt;" else if c == '>' then "&gt;" else [c]
  }

  /** Escaping works piecewise: the escape of a concatenation is the concatenation of the escapes. */
  lemma SanitizeAppend(a: string, b: string)
    ensures Sanitize(a + b) == Sanitize(a) + Sanitize(b)
  {
    if a == "" {
      assert a + b == b;
    } else if b == "" {
      assert a + b == a;
    } else {
      ReplaceAllAppend(a, b, '<', "&lt;");
      ReplaceAllAppend(ReplaceAll(a, '<', "&lt;"), ReplaceAll(b, '<', "&lt;"), '>', "&gt;");
    }
  }

  lemma SanitizeChar(c: char)
    ensures Sanitize([c]) == Escape(c)
  {
    assert [c][1..] == [];
  }

  /**
    So `Sanitize` is character-by-character `Escape`: every character other
    than `<` and `>` (`&` included) is copied unchanged and in order.
   */
  lemma {:induction false} SanitizeCons(c: char, rest: string)
    ensures Sanitize([c] + rest) == Escape(c) + Sanitize(rest)
  {
    SanitizeAppend([c], rest);
    SanitizeChar(c);
  }

  /** Text without `<` and `>` is left exactly as it is. */
  lemma SanitizeIdentity(s: string)
    requires '<' !in s && '>' !in s
    ensures Sanitize(s) == s
  {
  }

  lemma SanitizeIdempotent(s: string)
    ensures Sanitize(Sanitize(s)) == Sanitize(s)
  {
    SanitizeIdentity(Sanitize(s));
  }

  /** Every `<` and every `>` grows by three characters; nothing else changes length. */
  lemma SanitizeLength(s: string)
    ensures |Sanitize(s)| == |s| + 3 * (Occurrences(s, '<') + Occurrences(s, '>'))
  {
    if s != "" {
      var once := ReplaceAll(s, '<', "&lt;");
      var twice := ReplaceAll(once, '>', "&gt;");
      assert Sanitize(s) == twice;
      ReplaceAllLength(s, '<', "&lt;");
      ReplaceAllLength(once, '>', "&gt;");
      ReplaceAllKeepsOthers(s, '<', "&lt;", '>');
      LengthArithmetic(|s|, |once|, |twice|, Occurrences(s, '<'), Occurrences(s, '>'));
    }
  }

  lemma LengthArithmetic(n: int, once: int, twice: int, lt: int, gt: int)
    requires once == n + lt * (|"&lt;"| - 1)
    requires twice == once + gt * (|"&gt;"| - 1)
    ensures twice == n + 3 * (lt + gt)
  {
  }

  /**
    The two entities `Sanitize` produces, decoded back as a renderer reads
    them: `&lt;` shows as `<`, `&gt;` as `>`, anything else as itself.
   */
  function DecodeEntities(s: string): (r: string)
    decreases |s|
  {
    if s == [] then []
    else if |s| >= 4 && s[..4] == "&lt;" then "<" + DecodeEntities(s[4..])
    else if |s| >= 4 && s[..4] == "&gt;" then ">" + DecodeEntities(s[4..])
    else [s[0]] + DecodeEntities(s[1..])
  }

  lemma DecodeEscape(c: char, rest: string)
    requires c != '&'
    ensures DecodeEntities(Escape(c) + rest) == [c] + DecodeEntities(rest)
  {
    var t := Escape(c) + rest;
    if c == '<' {
      assert t[..4] == "&lt;" && t[4..] == rest;
    } else if c == '>' {
      assert t[..4] == "&gt;" && t[4..] == rest;
    } else {
      assert t[0] == c && t[1..] == rest;
    }
  }

  /** For text without `&`, the exported text displays as the original. */
  lemma {:induction false} DecodeSanitize(s: string)
    requires '&' !in s
    ensures DecodeEntities(Sanitize(s)) == s
  {
    if s != [] {
      assert s == [s[0]] + s[1..];
      SanitizeCons(s[0], s[1..]);
      DecodeSanitize(s[1..]);
      DecodeEscape(s[0], Sanitize(s[1..]));
    }
  }

  /**
    Because `&` is not escaped, escaping is not one-to-one: a literal `&lt;`
    in a field and a `<` in a field produce the same markup.
   */
  lemma SanitizeNotInjective()
    ensures Sanitize("<") == Sanitize("&lt;") && "<" != "&lt;"
  {
    assert Sanitize("<") == "&lt;" by {
      SanitizeChar('<');
    }
  }

  // ---------------------------------------------------------------------------
  // Lists and glossary
  // ---------------------------------------------------------------------------

  function ListItem(item: string): string
  {
    "<li>" + Sanitize(item) + "</li>"
  }

  /** `listToHtml`: one `<li>` per item, in order, wrapped in one unordered list. */
  function ListToHtml(items: seq<string>): string
  {
    "<ul>" + Concat(Map(ListItem, items)) + "</ul>"
  }

  lemma ListToHtmlEmpty()
    ensures ListToHtml([]) == "<ul></ul>"
  {
    assert Map(ListItem, []) == [];
  }

  /** The list body is built item by item: the body for `a + b` is the body for `a` followed by that for `b`. */
  lemma ListItemsAppend(a: seq<string>, b: seq<string>)
    ensures Concat(Map(ListItem, a + b)) == Concat(Map(ListItem, a)) + Concat(Map(ListItem, b))
  {
    ConcatMapAppend(ListItem, a, b);
  }

  /** One string becomes one `<li>` element holding its escaped text. */
  lemma ListToHtmlSingle(item: string)
    ensures ListToHtml([item]) == "<ul>" + "<li>" + Sanitize(item) + "</li>" + "</ul>"
  {
    ConcatMapSingle(ListItem, item);
  }

  /** Each item contributes exactly one `<li>` and one `</li>`: two of each angle bracket, whatever its text. */
  lemma ListItemTags(item: string, c: char)
    requires c == '<' || c == '>'
    ensures Occurrences(ListItem(item), c) == 2
  {
    OccurrencesJoin3("<li>", Sanitize(item), "</li>", c);
    if c == '<' {
      assert Occurrences("<li>", '<') == 1 && Occurrences("</li>", '<') == 1;
    } else {
      assert Occurrences("<li>", '>') == 1 && Occurrences("</li>", '>') == 1;
    }
  }

  /** A list of `n` items carries `2 + 2n` of each angle bracket, none of them from the items' text. */
  lemma ListToHtmlTags(items: seq<string>, c: char)
    requires c == '<' || c == '>'
    ensures Occurrences(ListToHtml(items), c) == 2 + 2 * |items|
  {
    EachListItemTags(items, c);
    MapUniformCount(ListItem, items, c, 2);
    OccurrencesJoin3("<ul>", Concat(Map(ListItem, items)), "</ul>", c);
    if c == '<' {
      assert Occurrences("<ul>", '<') == 1 && Occurrences("</ul>", '<') == 1;
    } else {
      assert Occurrences("<ul>", '>') == 1 && Occurrences("</ul>", '>') == 1;
    }
  }

  lemma EachListItemTags(items: seq<string>, c: char)
    requires c == '<' || c == '>'
    ensures forall i :: 0 <= i < |items| ==> Occurrences(ListItem(items[i]), c) == 2
  {
    forall i | 0 <= i < |items| ensures Occurrences(ListItem(items[i]), c) == 2 {
      ListItemTags(items[i], c);
    }
  }

  /** The fixed markup of a glossary entry, before the term, between term and definition, and after the definition. */
  const EntryOpen := "<div class=\"glossary-item\"><h4>"
  const EntryMid := "</h4><p>"
  const EntryClose := "</p></div>"

  /** One glossary entry: the term as an `<h4>` heading followed by the definition as a `<p>` paragraph. */
  function GlossaryEntry(item: GlossaryItem): string
  {
    EntryOpen + Sanitize(item.term) + EntryMid + Sanitize(item.definition) + EntryClose
  }

  /** `glossaryToHtml`: the entries one after another, with no surrounding element. */
  function GlossaryToHtml(items: seq<GlossaryItem>): string
  {
    Concat(Map(GlossaryEntry, items))
  }

  lemma GlossaryToHtmlEmpty()
    ensures GlossaryToHtml([]) == ""
  {
    assert Map(GlossaryEntry, []) == [];
  }

  /** The glossary is rendered entry by entry, in input order. */
  lemma GlossaryToHtmlAppend(a: seq<GlossaryItem>, b: seq<GlossaryItem>)
    ensures GlossaryToHtml(a + b) == GlossaryToHtml(a) + GlossaryToHtml(b)
  {
    ConcatMapAppend(GlossaryEntry, a, b);
  }

  lemma GlossaryToHtmlSingle(item: GlossaryItem)
    ensures GlossaryToHtml([item]) == EntryOpen + Sanitize(item.term) + EntryMid + Sanitize(item.definition) + EntryClose
  {
    ConcatMapSingle(GlossaryEntry, item);
  }

  /**
    The angle brackets of an entry are exactly those of its fixed markup:
    the term and the definition contribute none.
   */
  lemma GlossaryEntryTags(item: GlossaryItem, c: char)
    requires c == '<' || c == '>'
    ensures Occurrences(GlossaryEntry(item), c) == EntryMarkupTags(c)
  {
    OccurrencesJoin5(EntryOpen, Sanitize(item.term), EntryMid, Sanitize(item.definition), EntryClose, c);
  }

  /** The number of `c` in the fixed markup of one glossary entry. */
  function EntryMarkupTags(c: char): nat
  {
    Occurrences(EntryOpen, c) + Occurrences(EntryMid, c) + Occurrences(EntryClose, c)
  }

  lemma GlossaryToHtmlTags(items: seq<GlossaryItem>, c: char)
    requires c == '<' || c == '>'
    ensures Occurrences(GlossaryToHtml(items), c) == EntryMarkupTags(c) * |items|
  {
    EachGlossaryEntryTags(items, c);
    MapUniformCount(GlossaryEntry, items, c, EntryMarkupTags(c));
  }

  lemma EachGlossaryEntryTags(items: seq<GlossaryItem>, c: char)
    requires c == '<' || c == '>'
    ensures forall i :: 0 <= i < |items| ==> Occurrences(GlossaryEntry(items[i]), c) == EntryMarkupTags(c)
  {
    forall i | 0 <= i < |items| ensures Occurrences(GlossaryEntry(items[i]), c) == EntryMarkupTags(c) {
      GlossaryEntryTags(items[i], c);
    }
  }

  // ---------------------------------------------------------------------------
  // The report template
  // ---------------------------------------------------------------------------

  /** The start of the report up to the subject; the CSS rules of its style element are the opaque `styleSheet`. */
  function ReportHead(styleSheet: string): string
  {
    "<!DOCTYPE html><html><head><meta charset=\"UTF-8\"><style>" + styleSheet
      + "</style></head><body><div class=\"page-container\"><div class=\"header\">"
      + "<h1>Universal Explainer Report</h1><p class=\"subject\">"
  }

  // The fixed markup between two substituted values, named after the value that follows it.
  const BeforeCoreMessage := "</p></div><div class=\"section\"><h2>Core Message</h2><p>"
  const BeforeEli5 := "</p></div><div class=\"section\"><h2>Multi-level Understanding</h2><div class=\"level-container\">"
    + "<h3><span class=\"level-badge\" style=\"background-color: #16a34a;\">ELI5</span>Explain Like I'm 5</h3><p>"
  const BeforeIntermediate := "</p></div><div class=\"level-container\">"
    + "<h3><span class=\"level-badge\" style=\"background-color: #2563eb;\">INT</span>Intermediate Level</h3><p>"
  const BeforeAdvanced := "</p></div><div class=\"level-container\">"
    + "<h3><span class=\"level-badge\" style=\"background-color: #7c3aed;\">ADV</span>Advanced Level</h3><p>"
  const BeforeTechnicalDepth := "</p></div><div class=\"level-container\">"
    + "<h3><span class=\"level-badge\" style=\"background-color: #db2777;\">TECH</span>Technical Depth</h3><p>"
  const BeforeKeyTerms := "</p></div></div><div class=\"two-column\"><div class=\"section column-break\"><h2>Key Concepts</h2><h3>Key Terms</h3>"
  const BeforeGlossary := "<h3>Glossary</h3>"
  const BeforeAnalogy := "</div><div class=\"section column-break\"><h2>Clarity Tools</h2><h3>Analogy</h3><p>"
  const BeforeVisualDescription := "</p><h3>Visual Description</h3><p>"
  const BeforeExample := "</p></div><div class=\"section column-break\"><h2>Examples</h2><h3>Example</h3><p>"
  const BeforeCounterExample := "</p><h3>Counter Example</h3><p>"
  const BeforeRealWorldImplementation := "</p></div><div class=\"section column-break\"><h2>Application</h2><h3>Real-World Implementation</h3><p>"
  const BeforeUseCases := "</p><h3>Use Cases</h3>"
  const BeforeHistoricalContext := "</div><div class=\"section column-break\"><h2>Context & Depth</h2><h3>Historical Context</h3><p>"
  const BeforeFutureImplications := "</p><h3>Future Implications</h3><p>"
  const BeforeCommonMisconceptions := "</p></div><div class=\"section column-break\"><h2>Further Learning</h2><h3>Common Misconceptions</h3>"
  const BeforeRelatedConcepts := "<h3>Related Concepts</h3>"
  const BeforePracticalExercise := "</div></div><div class=\"section\" style=\"column-count: 1;\"><h2>Actionable Learning</h2><h3>Practical Exercise</h3><p>"
  const BeforeSummary := "</p><h3>Summary</h3><p>"
  const BeforeTranscript := "</p></div><div class=\"section\"><h2>Original Transcript</h2><div class=\"transcript-box\">"
  const ReportTail := "</div></div></div></body></html>"

  /**
    Fixed string `i` of the report's template literal: the head before the
    subject, the markup between two substituted values, and the tail after the
    transcript. Value `i` of `Substitutions` goes between string `i` and
    string `i + 1`.
   */
  function FixedMarkup(styleSheet: string, i: nat): string
    requires i < 22
  {
    if i == 0 then ReportHead(styleSheet)
    else if i == 1 then BeforeCoreMessage
    else if i == 2 then BeforeEli5
    else if i == 3 then BeforeIntermediate
    else if i == 4 then BeforeAdvanced
    else if i == 5 then BeforeTechnicalDepth
    else if i == 6 then BeforeKeyTerms
    else if i == 7 then BeforeGlossary
    else if i == 8 then BeforeAnalogy
    else if i == 9 then BeforeVisualDescription
    else if i == 10 then BeforeExample
    else if i == 11 then BeforeCounterExample
    else if i == 12 then BeforeRealWorldImplementation
    else if i == 13 then BeforeUseCases
    else if i == 14 then BeforeHistoricalContext
    else if i == 15 then BeforeFutureImplications
    else if i == 16 then BeforeCommonMisconceptions
    else if i == 17 then BeforeRelatedConcepts
    else if i == 18 then BeforePracticalExercise
    else if i == 19 then BeforeSummary
    else if i == 20 then BeforeTranscript
    else ReportTail
  }

  /** The fixed strings of the template, in order. */
  function TemplateStrings(styleSheet: string): (r: seq<string>)
    ensures |r| == 22
  {
    seq(22, i requires 0 <= i < 22 => FixedMarkup(styleSheet, i))
  }

  /** The template slots filled by a list helper rather than by escaped text. */
  predicate IsListSlot(i: nat)
  {
    i == 6 || i == 7 || i == 13 || i == 16 || i == 17
  }

  /** The text escaped into slot `i`: the fields in the report's order, and last the raw transcript. */
  function TextField(e: Explanation, rawTranscript: string, i: nat): string
    requires i < 21 && !IsListSlot(i)
  {
    if i == 0 then e.subject
    else if i == 1 then e.coreMessage
    else if i == 2 then e.eli5
    else if i == 3 then e.intermediate
    else if i == 4 then e.advanced
    else if i == 5 then e.technicalDepth
    else if i == 8 then e.analogy
    else if i == 9 then e.visualDescription
    else if i == 10 then e.example
    else if i == 11 then e.counterExample
    else if i == 12 then e.realWorldImplementation
    else if i == 14 then e.historicalContext
    else if i == 15 then e.futureImplications
    else if i == 18 then e.practicalExercise
    else if i == 19 then e.summary
    else rawTranscript
  }

  /**
    Value `i` of the template: the key terms, the glossary, the use cases, the
    misconceptions and the related concepts through the list helpers, every
    other slot the escaped text of its field.
   */
  function Substitution(e: Explanation, rawTranscript: string, i: nat): string
    requires i < 21
  {
    if i == 6 then ListToHtml(e.keyTerms)
    else if i == 7 then GlossaryToHtml(e.glossary)
    else if i == 13 then ListToHtml(e.useCases)
    else if i == 16 then ListToHtml(e.commonMisconceptions)
    else if i == 17 then ListToHtml(e.relatedConcepts)
    else Sanitize(TextField(e, rawTranscript, i))
  }

  /** The 21 values of the template, in order. */
  function Substitutions(e: Explanation, rawTranscript: string): (r: seq<string>)
    ensures |r| == 21
  {
    seq(21, i requires 0 <= i < 21 => Substitution(e, rawTranscript, i))
  }

  /** `htmlContent`: the evaluated template literal. */
  function Document(styleSheet: string, e: Explanation, rawTranscript: string): string
  {
    Interpolate(TemplateStrings(styleSheet), Substitutions(e, rawTranscript))
  }

  predicate Embeds(doc: string, offset: nat, piece: string)
  {
    offset + |piece| <= |doc| && doc[offset..offset + |piece|] == piece
  }

  /** Every substituted value sits at its offset, and each value ends before the next one starts. */
  lemma DocumentEmbedsSubstitutions(styleSheet: string, e: Explanation, rawTranscript: string)
    ensures forall i :: 0 <= i < 21 ==>
      Embeds(Document(styleSheet, e, rawTranscript), Offsets(styleSheet, e, rawTranscript)[i], Substitution(e, rawTranscript, i))
    ensures forall i :: 0 <= i < 20 ==>
      Offsets(styleSheet, e, rawTranscript)[i] + |Substitution(e, rawTranscript, i)| <= Offsets(styleSheet, e, rawTranscript)[i + 1]
  {
    SubstitutionsEmbedded(TemplateStrings(styleSheet), e, rawTranscript);
  }

  /** The same for any 22 fixed strings around the substitutions. */
  lemma SubstitutionsEmbedded(strings: seq<string>, e: Explanation, rawTranscript: string)
    requires |strings| == 22
    ensures forall i :: 0 <= i < 21 ==>
      Embeds(Interpolate(strings, Substitutions(e, rawTranscript)), ValueOffset(strings, Substitutions(e, rawTranscript), i),
        Substitution(e, rawTranscript, i))
    ensures forall i :: 0 <= i < 20 ==>
      ValueOffset(strings, Substitutions(e, rawTranscript), i) + |Substitution(e, rawTranscript, i)|
        <= ValueOffset(strings, Substitutions(e, rawTranscript), i + 1)
  {
    var values := Substitutions(e, rawTranscript);
    forall i | 0 <= i < 21
      ensures Embeds(Interpolate(strings, values), ValueOffset(strings, values, i), Substitution(e, rawTranscript, i))
      ensures i < 20 ==> ValueOffset(strings, values, i) + |Substitution(e, rawTranscript, i)| <= ValueOffset(strings, values, i + 1)
    {
      InterpolateEmbeds(strings, values, i);
      assert values[i] == Substitution(e, rawTranscript, i);
    }
  }

  /**
    `doc` holds, at offsets `o`, every field of `e` escaped or rendered as a
    list, in the report's order, and then the escaped transcript.
   */
  predicate FieldsAt(doc: string, o: seq<nat>, e: Explanation, rawTranscript: string)
    requires |o| == 21
  {
    && Embeds(doc, o[0], Sanitize(e.subject))
    && Embeds(doc, o[1], Sanitize(e.coreMessage))
    && Embeds(doc, o[2], Sanitize(e.eli5))
    && Embeds(doc, o[3], Sanitize(e.intermediate))
    && Embeds(doc, o[4], Sanitize(e.advanced))
    && Embeds(doc, o[5], Sanitize(e.technicalDepth))
    && Embeds(doc, o[6], ListToHtml(e.keyTerms))
    && Embeds(doc, o[7], GlossaryToHtml(e.glossary))
    && Embeds(doc, o[8], Sanitize(e.analogy))
    && Embeds(doc, o[9], Sanitize(e.visualDescription))
    && Embeds(doc, o[10], Sanitize(e.example))
    && Embeds(doc, o[11], Sanitize(e.counterExample))
    && Embeds(doc, o[12], Sanitize(e.realWorldImplementation))
    && Embeds(doc, o[13], ListToHtml(e.useCases))
    && Embeds(doc, o[14], Sanitize(e.historicalContext))
    && Embeds(doc, o[15], Sanitize(e.futureImplications))
    && Embeds(doc, o[16], ListToHtml(e.commonMisconceptions))
    && Embeds(doc, o[17], ListToHtml(e.relatedConcepts))
    && Embeds(doc, o[18], Sanitize(e.practicalExercise))
    && Embeds(doc, o[19], Sanitize(e.summary))
    && Embeds(doc, o[20], Sanitize(rawTranscript))
  }

  lemma FieldsAtFromSubstitutions(doc: string, o: seq<nat>, e: Explanation, rawTranscript: string)
    requires |o| == 21
    requires forall i :: 0 <= i < 21 ==> Embeds(doc, o[i], Substitution(e, rawTranscript, i))
    ensures FieldsAt(doc, o, e, rawTranscript)
  {
    assert Embeds(doc, o[0], Substitution(e, rawTranscript, 0));
    assert Embeds(doc, o[1], Substitution(e, rawTranscript, 1));
    assert Embeds(doc, o[2], Substitution(e, rawTranscript, 2));
    assert Embeds(doc, o[3], Substitution(e, rawTranscript, 3));
    assert Embeds(doc, o[4], Substitution(e, rawTranscript, 4));
    assert Embeds(doc, o[5], Substitution(e, rawTranscript, 5));
    assert Embeds(doc, o[6], Substitution(e, rawTranscript, 6));
    assert Embeds(doc, o[7], Substitution(e, rawTranscript, 7));
    assert Embeds(doc, o[8], Substitution(e, rawTranscript, 8));
    assert Embeds(doc, o[9], Substitution(e, rawTranscript, 9));
    assert Embeds(doc, o[10], Substitution(e, rawTranscript, 10));
    assert Embeds(doc, o[11], Substitution(e, rawTranscript, 11));
    assert Embeds(doc, o[12], Substitution(e, rawTranscript, 12));
    assert Embeds(doc, o[13], Substitution(e, rawTranscript, 13));
    assert Embeds(doc, o[14], Substitution(e, rawTranscript, 14));
    assert Embeds(doc, o[15], Substitution(e, rawTranscript, 15));
    assert Embeds(doc, o[16], Substitution(e, rawTranscript, 16));
    assert Embeds(doc, o[17], Substitution(e, rawTranscript, 17));
    assert Embeds(doc, o[18], Substitution(e, rawTranscript, 18));
    assert Embeds(doc, o[19], Substitution(e, rawTranscript, 19));
    assert Embeds(doc, o[20], Substitution(e, rawTranscript, 20));
  }

  /**
    The document holds every field, escaped, and then the transcript, in this
    order and without overlap: each at its offset, each offset at or past the
    end of the value before.
   */
  lemma DocumentFieldsInOrder(styleSheet: string, e: Explanation, rawTranscript: string)
    ensures FieldsAt(Document(styleSheet, e, rawTranscript), Offsets(styleSheet, e, rawTranscript), e, rawTranscript)
    ensures var o := Offsets(styleSheet, e, rawTranscript);
      forall i :: 0 <= i < 20 ==> o[i] + |Substitution(e, rawTranscript, i)| <= o[i + 1]
  {
    DocumentEmbedsSubstitutions(styleSheet, e, rawTranscript);
    FieldsAtFromSubstitutions(Document(styleSheet, e, rawTranscript), Offsets(styleSheet, e, rawTranscript), e, rawTranscript);
  }

  /** The offsets of the 21 substituted values. */
  function Offsets(styleSheet: string, e: Explanation, rawTranscript: string): (o: seq<nat>)
    ensures |o| == 21
  {
    seq(21, i requires 0 <= i < 21 => ValueOffset(TemplateStrings(styleSheet), Substitutions(e, rawTranscript), i))
  }

  // ---------------------------------------------------------------------------
  // Tag safety
  // ---------------------------------------------------------------------------

  /** Two explanations with list fields of the same lengths: their reports share all markup. */
  predicate SameShape(a: Explanation, b: Explanation)
  {
    && |a.keyTerms| == |b.keyTerms|
    && |a.glossary| == |b.glossary|
    && |a.useCases| == |b.useCases|
    && |a.commonMisconceptions| == |b.commonMisconceptions|
    && |a.relatedConcepts| == |b.relatedConcepts|
  }

  /** The angle brackets of one substituted value depend on the shape alone, never on text. */
  lemma SubstitutionTags(e1: Explanation, t1: string, e2: Explanation, t2: string, i: nat, c: char)
    requires SameShape(e1, e2) && i < 21
    requires c == '<' || c == '>'
    ensures Occurrences(Substitution(e1, t1, i), c) == Occurrences(Substitution(e2, t2, i), c)
  {
    if i == 6 {
      ListToHtmlTags(e1.keyTerms, c);
      ListToHtmlTags(e2.keyTerms, c);
    } else if i == 7 {
      GlossaryToHtmlTags(e1.glossary, c);
      GlossaryToHtmlTags(e2.glossary, c);
    } else if i == 13 {
      ListToHtmlTags(e1.useCases, c);
      ListToHtmlTags(e2.useCases, c);
    } else if i == 16 {
      ListToHtmlTags(e1.commonMisconceptions, c);
      ListToHtmlTags(e2.commonMisconceptions, c);
    } else if i == 17 {
      ListToHtmlTags(e1.relatedConcepts, c);
      ListToHtmlTags(e2.relatedConcepts, c);
    }
  }

  /**
    No text of an explanation and no transcript can open or close a tag: any
    two reports of the same shape hold exactly as many `<` and as many `>`,
    whatever their fields and transcripts say.
   */
  lemma DocumentTagsIndependentOfText(styleSheet: string, e1: Explanation, t1: string, e2: Explanation, t2: string, c: char)
    requires SameShape(e1, e2)
    requires c == '<' || c == '>'
    ensures Occurrences(Document(styleSheet, e1, t1), c) == Occurrences(Document(styleSheet, e2, t2), c)
  {
    var v1, v2 := Substitutions(e1, t1), Substitutions(e2, t2);
    forall i | 0 <= i < |v1| ensures Occurrences(v1[i], c) == Occurrences(v2[i], c) {
      SubstitutionTags(e1, t1, e2, t2, i, c);
    }
    InterpolateSameCount(TemplateStrings(styleSheet), v1, v2, c);
  }

  // ---------------------------------------------------------------------------
  // The file name
  // ---------------------------------------------------------------------------

  /**
    `replace(/\s+/g, '_')`: every maximal run of whitespace becomes one
    underscore; every other character is kept.
   */
  function CollapseSpaces(s: string): (r: string)
    ensures NoSpace(r)
    ensures |r| <= |s|
    ensures forall x :: x in r ==> x in s || x == '_'
    decreases |s|
  {
    if s == [] then []
    else if IsSpace(s[0]) then
      var t := TrimStart(s);
      assert t == TrimStart(s[1..]);
      TrimStartElements(s);
      var rest := CollapseSpaces(t);
      assert forall x :: x in "_" + rest ==> x == '_' || x in rest;
      "_" + rest
    else
      var rest := CollapseSpaces(s[1..]);
      assert forall x :: x in [s[0]] + rest ==> x == s[0] || x in rest;
      [s[0]] + rest
  }

  /**
    A reference reading of the same replacement, as a left-to-right scan
    that remembers whether it is inside a run of whitespace.
   */
  function ScanSpaces(s: string, inRun: bool): string
    decreases |s|
  {
    if s == [] then []
    else if IsSpace(s[0]) then (if inRun then [] else "_") + ScanSpaces(s[1..], true)
    else [s[0]] + ScanSpaces(s[1..], false)
  }

  lemma {:induction false} ScanSkipsRun(s: string)
    ensures ScanSpaces(s, true) == ScanSpaces(TrimStart(s), false)
    decreases |s|
  {
    if s != [] && IsSpace(s[0]) {
      ScanSkipsRun(s[1..]);
    }
  }

  /** The recursive definition and the scanner agree on every input. */
  lemma {:induction false} CollapseSpacesIsScan(s: string)
    ensures CollapseSpaces(s) == ScanSpaces(s, false)
    decreases |s|
  {
    if s != [] {
      if IsSpace(s[0]) {
        CollapseSpacesIsScan(TrimStart(s));
        ScanSkipsRun(s[1..]);
      } else {
        CollapseSpacesIsScan(s[1..]);
      }
    }
  }

  /** Text without whitespace is left as it is. */
  lemma {:induction false} CollapseSpacesIdentity(s: string)
    requires NoSpace(s)
    ensures CollapseSpaces(s) == s
    decreases |s|
  {
    if s != [] {
      assert !IsSpace(s[0]);
      CollapseSpacesIdentity(s[1..]);
    }
  }

  /** A word, a stretch without whitespace, is copied as it is. */
  lemma {:induction false} CollapseSpacesWord(word: string, rest: string)
    requires NoSpace(word)
    ensures CollapseSpaces(word + rest) == word + CollapseSpaces(rest)
    decreases |word|
  {
    if word != [] {
      var s := word + rest;
      assert s[0] == word[0] && !IsSpace(s[0]);
      assert s[1..] == word[1..] + rest;
      assert CollapseSpaces(s) == [word[0]] + CollapseSpaces(s[1..]);
      CollapseSpacesWord(word[1..], rest);
      assert word == [word[0]] + word[1..];
    } else {
      assert word + rest == rest;
    }
  }

  /** A whole run of whitespace, up to the next non-space, becomes a single underscore. */
  lemma CollapseSpacesRun(run: string, rest: string)
    requires run != [] && IsBlank(run)
    requires rest == [] || !IsSpace(rest[0])
    ensures CollapseSpaces(run + rest) == "_" + CollapseSpaces(rest)
  {
    TrimStartBlankPrefix(run, rest);
  }

  /** The file name stem: the subject lower-cased, whitespace runs replaced by underscores. */
  function Slug(subject: string): (r: string)
    ensures NoSpace(r)
    ensures forall i :: 0 <= i < |r| ==> !IsUpper(r[i])
    ensures |r| <= |subject|
  {
    var lower := Lower(subject);
    assert forall x :: x in lower ==> !IsUpper(x);
    CollapseSpaces(lower)
  }

  const FilenameSuffix := "_explanation.pdf"

  /** The name the PDF is saved under. */
  function Filename(subject: string): (r: string)
    ensures |r| >= |FilenameSuffix| && r[|r| - |FilenameSuffix|..] == FilenameSuffix
    ensures r[..|r| - |FilenameSuffix|] == Slug(subject)
  {
    Slug(subject) + FilenameSuffix
  }

  /** A stem is its own stem: naming is stable once applied. */
  lemma SlugIdempotent(subject: string)
    ensures Slug(Slug(subject)) == Slug(subject)
  {
    var r := Slug(subject);
    assert Lower(r) == r;
    CollapseSpacesIdentity(r);
  }

  /**
    A two-word subject, whatever whitespace separates the words, is saved as
    the lower-cased words joined by one underscore.
   */
  lemma FilenameTwoWords(first: string, gap: string, second: string)
    requires NoSpace(first) && NoSpace(second) && second != []
    requires gap != [] && IsBlank(gap)
    ensures Filename(first + gap + second) == Lower(first) + "_" + Lower(second) + FilenameSuffix
  {
    var w1, g, w2 := Lower(first), Lower(gap), Lower(second);
    assert Lower(first + gap + second) == w1 + (g + w2);
    LowerKeepsSpaces(first);
    LowerKeepsSpaces(second);
    assert IsBlank(g);
    assert !IsSpace(w2[0]);
    CollapseSpacesIdentity(w2);
    CollapseSpacesRun(g, w2);
    CollapseSpacesWord(w1, g + w2);
  }

  /**
    The subject "Quantum Entanglement" is saved as
    "quantum_entanglement_explanation.pdf". The subject is a parameter so that
    the file-name functions are not unfolded on the literal.
   */
  lemma FilenameQuantumEntanglement(subject: string)
    requires subject == "Quantum Entanglement"
    ensures Filename(subject) == "quantum_entanglement_explanation.pdf"
  {
    var first, gap, second := "Quantum", " ", "Entanglement";
    assert NoSpace(first) && NoSpace(second) && IsBlank(gap);
    assert subject == first + gap + second;
    FilenameTwoWords(first, gap, second);
    assert Lower(first) == "quantum";
    assert Lower(second) == "entanglement";
  }

  // ---------------------------------------------------------------------------
  // The export
  // ---------------------------------------------------------------------------

  /** What is handed to the renderer: the report and its file name. */
  datatype PdfJob = PdfJob(html: string, filename: string)

  /**
    `exportToPdf`: nothing happens when the renderer is not loaded; otherwise
    the report of `e` and `rawTranscript` is saved under the subject's file name.
   */
  function ExportToPdf(styleSheet: string, e: Explanation, rawTranscript: string, rendererLoaded: bool): (r: Option<PdfJob>)
    ensures r.None? <==> !rendererLoaded
    ensures r.Some? ==> r.value.html == Document(styleSheet, e, rawTranscript)
    ensures r.Some? ==> r.value.filename == Filename(e.subject)
  {
    if !rendererLoaded then None
    else Some(PdfJob(Document(styleSheet, e, rawTranscript), Filename(e.subject)))
  }
}
