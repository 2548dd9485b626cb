# Universal Explainer: a Dafny model of the report exporter, the result screen and the app shell

Universal Explainer is a React application. The user pastes a transcript, a
language-model service turns it into a structured explanation, and the app
shows that explanation at four difficulty levels. The explanation can be
exported as a PDF report. This project models three parts of the app and
proves properties about them:

- **The PDF exporter** (`hooks/usePdfExporter.ts`). It covers:
  - `sanitize`, which escapes `<` and `>`;
  - the list and glossary helpers;
  - the report, an HTML template literal with 21 substituted values;
  - the file name derived from the subject;
  - the guard that does nothing while the renderer is missing.

  The template literal is modelled as JavaScript evaluates it: fixed strings
  and substituted values alternate (`Text.Interpolate`). The report's CSS is
  an opaque parameter `styleSheet`.
- **The result screen** (`components/ExplanationView.tsx`). It covers:
  - the selected level, starting at Intermediate;
  - the level-to-field mapping;
  - the four badges, exactly one of them active;
  - the export button gated on the renderer being ready;
  - `handleExport`.

  The mutable component state is the class `ExplanationView.ResultScreen`.
- **The app shell** (`App.tsx`). It covers:
  - the four state variables: transcript, explanation, loading flag, error;
  - `handleGenerate`, split at its `await`;
  - `handleReset`;
  - the choice between the input screen and the result screen.

  The state is the class `App.Shell`. Its methods are specified by the pure
  step functions `App.StartStep` and `App.CompleteStep`, and the lemmas are
  about those step functions.

Files:
- `types.dfy`: the explanation record `Types.Explanation` (`types.ts:2-24`, with the glossary as a sequence of term and definition pairs) and the level enumeration `Types.ExplanationLevel` (`types.ts:26-31`).
- `text.dfy`: the string primitives the app relies on:
  - ASCII whitespace, `toLowerCase` and `trim`;
  - counting characters;
  - `replace` with a global pattern;
  - `join('')`;
  - template-literal evaluation.
- `exporter.dfy`, `explanation_view.dfy`, `app.dfy`: the three parts above.

Main results:
- No substituted text can contribute a `<` or `>` to the report. Two reports
  whose list fields have the same lengths contain the same number of each,
  whatever the text says (`PdfExporter.DocumentTagsIndependentOfText`).
- The report contains every field, escaped, in the template's order and
  without overlap (`PdfExporter.DocumentFieldsInOrder`).
- The file name has no whitespace and no upper-case letter. Each run of
  whitespace becomes a single underscore (`PdfExporter.CollapseSpacesRun`).
  The name always ends in `_explanation.pdf`.
- A blank transcript never reaches the service. A request that succeeds
  leads to the result screen, and one that fails leads back to the input
  screen with the error message.

## Model

| member | source | states |
|---|---|---|
| Types.LevelValue | types.ts:26-31 | the string value of each `ExplanationLevel` member, used as the badge key |
| Types.LevelValueInjective | types.ts:26-31 | the four enumeration members have four distinct string values |
| Types.AllLevelsEnumerates | types.ts:26-31 | the levels in declaration order are four, distinct, and include every member |
| Text.ToLower | hooks/usePdfExporter.ts:283 | lower-casing one character: the result is never upper case, whitespace stays whitespace, and other characters are unchanged |
| Text.Lower | hooks/usePdfExporter.ts:283 | `toLowerCase` keeps the length and lower-cases each position |
| Text.LowerKeepsSpaces | hooks/usePdfExporter.ts:283 | lower-casing neither creates nor removes whitespace |
| Text.TrimStart | App.tsx:15 | the leading pass of `trim`: drops leading whitespace and never lengthens the text |
| Text.TrimEnd | App.tsx:15 | the trailing pass of `trim`: drops trailing whitespace and never lengthens the text |
| Text.Trim | App.tsx:15 | `trim()`: both passes, the leading one first |
| Text.TrimStartSuffix | App.tsx:15 | `trim`'s leading pass leaves a suffix of the input whose first character is not whitespace, and everything it dropped is whitespace |
| Text.TrimEndPrefix | App.tsx:15 | the trailing pass leaves a prefix whose last character is not whitespace, and everything it dropped is whitespace |
| Text.TrimIsInfix | App.tsx:15 | the trimmed transcript is a contiguous slice of the input, with non-space ends |
| Text.TrimEmptyIffBlank | App.tsx:15 | a transcript trims to the empty string exactly when it consists of whitespace only |
| Text.Occurrences | hooks/usePdfExporter.ts:32 | the count of a character is at most the length, and is zero exactly when the character is absent |
| Text.ReplaceAll | hooks/usePdfExporter.ts:32 | `replace(/c/g, rep)` leaves a string without `c` unchanged, and leaves no `c` when `rep` has none |
| Text.ReplaceAllElements | hooks/usePdfExporter.ts:32 | every character of the result is a character of the input other than `c`, or comes from `rep` |
| Text.ReplaceAllLength | hooks/usePdfExporter.ts:32 | each replaced occurrence changes the length by `|rep| - 1` |
| Text.ReplaceAllKeepsOthers | hooks/usePdfExporter.ts:32 | a character that is neither `c` nor in `rep` occurs as often after the replacement as before |
| Text.Concat | hooks/usePdfExporter.ts:48-49 | `join('')`: the parts one after another with no separator |
| Text.Map | hooks/usePdfExporter.ts:48-49 | `map(f)`: one result per element, `f` of the element at the same position |
| Text.ConcatEmptyIff | hooks/usePdfExporter.ts:48-49 | `join('')` is empty exactly when every part is empty |
| Text.ConcatMapAppend | hooks/usePdfExporter.ts:48-49 | `map(...).join('')` over two lists joined is the two results joined |
| Text.ConcatUniformCount | hooks/usePdfExporter.ts:48-49 | if each part holds `k` copies of a character, the joined string holds `k` copies per part |
| Text.MapUniformCount | hooks/usePdfExporter.ts:48-49 | if every mapped element holds `k` copies of a character, `map(...).join('')` holds `k` per element |
| Text.Interpolate | hooks/usePdfExporter.ts:51-279 | a template literal evaluated: fixed string 0, value 0, fixed string 1, and so on, ending with the last fixed string |
| Text.InterpolateEmbeds | hooks/usePdfExporter.ts:51-279 | in an evaluated template literal, value `i` sits at its offset, followed by fixed string `i + 1` and then value `i + 1` |
| Text.InterpolateSameCount | hooks/usePdfExporter.ts:51-279 | evaluating one template with values whose counts of a character match position by position gives equal counts |
| PdfExporter.Sanitize | hooks/usePdfExporter.ts:30-33 | the result has no `<` and no `>`; empty text gives the empty string |
| PdfExporter.SanitizeAppend | hooks/usePdfExporter.ts:30-33 | escaping works character by character: it distributes over concatenation |
| PdfExporter.SanitizeCons | hooks/usePdfExporter.ts:32 | `<` becomes `&lt;`, `>` becomes `&gt;`, and every other character is copied |
| PdfExporter.SanitizeIdentity | hooks/usePdfExporter.ts:30-33 | text without angle brackets passes unchanged |
| PdfExporter.SanitizeIdempotent | hooks/usePdfExporter.ts:30-33 | escaping twice is escaping once |
| PdfExporter.SanitizeLength | hooks/usePdfExporter.ts:32 | each angle bracket adds three characters |
| PdfExporter.DecodeSanitize | hooks/usePdfExporter.ts:30-33 | text without `&` is recovered exactly by decoding the two entities |
| PdfExporter.SanitizeNotInjective | hooks/usePdfExporter.ts:32 | because `&` is not escaped, `<` and `&lt;` escape to the same output |
| PdfExporter.ListItem | hooks/usePdfExporter.ts:48 | one list element of `listToHtml`: `<li>`, the escaped item, `</li>` |
| PdfExporter.ListToHtml | hooks/usePdfExporter.ts:48 | `listToHtml`: `<ul>`, the elements of the items in order, `</ul>` |
| PdfExporter.ListToHtmlEmpty | hooks/usePdfExporter.ts:48 | an empty list renders as `<ul></ul>` |
| PdfExporter.ListToHtmlSingle | hooks/usePdfExporter.ts:48 | a one-item list renders as the escaped item inside `<ul><li>` and `</li></ul>` |
| PdfExporter.ListItemsAppend | hooks/usePdfExporter.ts:48 | the rendered items of two lists joined are the two renderings joined |
| PdfExporter.ListItemTags | hooks/usePdfExporter.ts:48 | one `<li>` element holds exactly two of each angle bracket, whatever its item says |
| PdfExporter.ListToHtmlTags | hooks/usePdfExporter.ts:48 | a list of `n` items holds exactly `2 + 2n` of each angle bracket, whatever the items say |
| PdfExporter.GlossaryEntry | hooks/usePdfExporter.ts:49 | one glossary entry: the escaped term in an `<h4>`, then the escaped definition in a `<p>`, inside a `glossary-item` division |
| PdfExporter.GlossaryToHtml | hooks/usePdfExporter.ts:49 | `glossaryToHtml`: the entries in order, joined with no separator |
| PdfExporter.GlossaryToHtmlEmpty | hooks/usePdfExporter.ts:49 | an empty glossary renders as nothing |
| PdfExporter.GlossaryToHtmlSingle | hooks/usePdfExporter.ts:49 | one entry renders as its escaped term and definition inside the entry markup |
| PdfExporter.GlossaryToHtmlAppend | hooks/usePdfExporter.ts:49 | rendering distributes over concatenation of glossaries |
| PdfExporter.GlossaryEntryTags | hooks/usePdfExporter.ts:49 | the angle brackets of a glossary entry are exactly those of its fixed markup |
| PdfExporter.GlossaryToHtmlTags | hooks/usePdfExporter.ts:49 | each entry adds the same fixed number of angle brackets, whatever its term and definition say |
| PdfExporter.FixedMarkup | hooks/usePdfExporter.ts:51-279 | the fixed markup of the report between two substitutions, with the style sheet inside the head |
| PdfExporter.Substitutions | hooks/usePdfExporter.ts:187-275 | the 21 substituted values: the escaped text fields and the rendered lists, in template order, then the escaped transcript |
| PdfExporter.Document | hooks/usePdfExporter.ts:51-279 | `htmlContent`: the template literal evaluated with those values |
| PdfExporter.TemplateStrings | hooks/usePdfExporter.ts:51-279 | the report template has 22 fixed strings around its 21 substitutions |
| PdfExporter.DocumentEmbedsSubstitutions | hooks/usePdfExporter.ts:51-279 | every substituted value appears in the report at its offset, and each value ends before the next one starts |
| PdfExporter.DocumentFieldsInOrder | hooks/usePdfExporter.ts:187-275 | the report holds, in order, the escaped subject, core message, the four level texts, the key-term list, the glossary, and so on through the summary, then the escaped transcript |
| PdfExporter.DocumentTagsIndependentOfText | hooks/usePdfExporter.ts:30-279 | two reports whose list fields have the same lengths hold equally many `<` and equally many `>`: field text and transcript never add a tag |
| PdfExporter.CollapseSpaces | hooks/usePdfExporter.ts:283 | `replace(/\s+/g, '_')` leaves no whitespace, does not lengthen the text, and introduces no character other than `_` |
| PdfExporter.CollapseSpacesIsScan | hooks/usePdfExporter.ts:283 | the replacement agrees with a left-to-right scan that emits one `_` on entering each whitespace run |
| PdfExporter.CollapseSpacesWord | hooks/usePdfExporter.ts:283 | a stretch without whitespace is copied unchanged |
| PdfExporter.CollapseSpacesRun | hooks/usePdfExporter.ts:283 | a whole run of whitespace, however long, becomes exactly one `_` |
| PdfExporter.CollapseSpacesIdentity | hooks/usePdfExporter.ts:283 | text without whitespace is left unchanged |
| PdfExporter.Slug | hooks/usePdfExporter.ts:283 | the file-name stem has no whitespace, no upper-case letter, and is no longer than the subject |
| PdfExporter.Filename | hooks/usePdfExporter.ts:283 | the file name is the stem followed by `_explanation.pdf` |
| PdfExporter.SlugIdempotent | hooks/usePdfExporter.ts:283 | applying the stem rule to a stem changes nothing |
| PdfExporter.FilenameTwoWords | hooks/usePdfExporter.ts:283 | two words separated by any whitespace give the lower-cased words joined by one `_`, then `_explanation.pdf` |
| PdfExporter.FilenameQuantumEntanglement | hooks/usePdfExporter.ts:283 | the subject "Quantum Entanglement" is saved as `quantum_entanglement_explanation.pdf` |
| PdfExporter.ExportToPdf | hooks/usePdfExporter.ts:35-39 | without the renderer nothing is produced; with it, the job is the report of this explanation and transcript under the subject's file name |
| ExplanationView.BadgeLabel | components/ExplanationView.tsx:15-21 | the `levelConfig` label of each level: "ELI5", "Intermediate", "Advanced", "Technical" |
| ExplanationView.BadgeLabelInjective | components/ExplanationView.tsx:15-21 | the four badge labels are distinct |
| ExplanationView.LevelText | components/ExplanationView.tsx:91-99 | `currentExplanation`: `eli5`, `intermediate`, `advanced` or `technicalDepth` for the four levels |
| ExplanationView.LevelSlot | hooks/usePdfExporter.ts:195-212 | each level's section is one of the four level sections of the report, substitutions 2 to 5 after the subject and the core message |
| ExplanationView.LevelTextMatchesReport | components/ExplanationView.tsx:91-99 | the text shown for a level is the field the report prints, escaped, in that level's section, and no two levels share a section |
| ExplanationView.Badges | components/ExplanationView.tsx:134-141 | one badge per level in enumeration order, keyed by the level, active when it is the selected level |
| ExplanationView.BadgesExactlyOneActive | components/ExplanationView.tsx:134-141 | one badge per level in declaration order, each with its label, the four keys distinct, and exactly one active: the selected level's |
| ExplanationView.Render | components/ExplanationView.tsx:106-172 | what the screen shows: title, core message, export button, badges, the selected level's text and the other cards |
| ExplanationView.SwitchingLevelChangesOnlyLevelText | components/ExplanationView.tsx:139 | selecting another level changes only the badges and the level text on the screen, and the badges always change |
| ExplanationView.ExportButtonEnabledIffReady | components/ExplanationView.tsx:115-121 | the export button is enabled exactly when the renderer is ready |
| ExplanationView.ResultScreen.constructor | components/ExplanationView.tsx:88-89 | on mount the intermediate level is selected and the renderer is not yet ready |
| ExplanationView.ResultScreen.SelectLevel | components/ExplanationView.tsx:139 | a badge click sets the level and changes nothing else that is shown |
| ExplanationView.ResultScreen.RendererLoaded | hooks/usePdfExporter.ts:19 | the renderer's script loading makes the export usable and keeps the level |
| ExplanationView.ResultScreen.HandleExport | components/ExplanationView.tsx:101-105 | nothing is exported until the renderer is ready; afterwards the export of this explanation and transcript runs |
| App.StartStep | App.tsx:14-20 | `handleGenerate` before its `await`: the blank-input guard, or loading on, error cleared and the transcript sent |
| App.ErrorMessage | App.tsx:25 | the message of a thrown `Error`, or "An unknown error occurred." for any other value |
| App.CompleteStep | App.tsx:21-29 | `handleGenerate` after its `await`: the result stored or the error set, then loading off |
| App.ViewOf | App.tsx:41-55 | the result screen with the explanation and the transcript when an explanation is present, else the input screen |
| App.ViewReviewingIffExplanation | App.tsx:41-55 | the result screen is shown exactly when an explanation is present, with that explanation and the current transcript |
| App.StartGuardsBlankInput | App.tsx:14-20 | a blank transcript only sets the empty-input error and sends nothing; otherwise the transcript is sent with loading on and the error cleared; transcript and explanation are untouched |
| App.CompleteEndsLoading | App.tsx:21-29 | loading always ends; a result is stored, and a rejection sets the thrown error's message or the generic one |
| App.GenerateSuccessShowsResult | App.tsx:14-29 | a successful request for a non-blank transcript leads to its result screen |
| App.GenerateFailureShowsError | App.tsx:14-29 | a failed request leaves the input screen with the transcript, no spinner and the failure's message |
| App.StartShowsSpinner | App.tsx:19-20 | while a request is in flight, the input screen shows the spinner and no error |
| App.ResetShowsEmptyInput | App.tsx:32-37 | after a reset the input screen is empty, with no error and no spinner |
| App.Shell.constructor | App.tsx:9-12 | the first render has an empty transcript, no explanation, no loading and no error |
| App.Shell.SetTranscript | App.tsx:9 | typing replaces the transcript and nothing else |
| App.Shell.Start | App.tsx:14-20 | `handleGenerate` up to the `await` is `StartStep` |
| App.Shell.Complete | App.tsx:21-29 | `handleGenerate` after the `await` is `CompleteStep` |
| App.Shell.Generate | App.tsx:14-30 | the whole handler: a blank transcript stops at the guard, any other is sent and the outcome is applied |
| App.Shell.Reset | App.tsx:32-37 | `handleReset` restores the first-render state |

## Left out

- The explanation service (`services/geminiService.ts`) is not part of this model. A request returns the transcript to send, and the settled promise comes back as an `App.ServiceOutcome` parameter. The service re-wraps every failure, including a response it cannot parse, into one `Error` message and does not validate the record it returns.
- The hook's DOM work is left out: it creates and removes a `<script>` element and sets its integrity attributes. Only its effect is kept: the script's `onload` marks the renderer ready (`ResultScreen.RendererLoaded`).
- The `html2pdf` call and its options are left out: margins, image quality, canvas scale and page format. The model stops at the job (HTML and file name) handed to the renderer, and `console.error` is not modelled.
- The CSS inside the report's `<style>` element is an opaque parameter `styleSheet`. It is fixed source text with no substitutions.
- The template's newlines and indentation between tags are dropped from the fixed strings. No substitution and no property depends on them, but the modelled document is not byte-for-byte the source's string.
- `\s`, `trim` and `toLowerCase` are modelled for ASCII only. Whitespace is space, tab, line feed, vertical tab, form feed and carriage return. Unicode spaces, the byte-order mark and non-ASCII case mappings are not modelled.
- Sanitize: does not model JavaScript's falsy values other than the empty string. The record is total in the model, so a missing field, which `sanitize` would turn into the empty string and `listToHtml` would throw on, cannot occur.
- The `default` branch of the `currentExplanation` switch cannot be reached with a well-typed level. `ExplanationView.LevelText` has no such branch.
- `InputView` and `Loading` are left out, as are the JSX layout, classes, colours and icons of the cards. `ExplanationView.Screen` records only which content each card shows.
- Concurrency is left out. React batches state updates and the `await` interleaves with other handlers. The model treats each handler as atomic up to its `await`, and `App.Shell.Complete` may be called in any state, as the source allows: a result that arrives after a reset is still stored.
- `App.Shell.Generate` takes the service outcome as a parameter, so it does not model a transcript edited while the request is in flight.
