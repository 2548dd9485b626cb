/**
  The result screen (components/ExplanationView.tsx): the level selector with
  its four badges, the text of the selected level, the other cards, and the
  export button guarded by the renderer's readiness.
 */
module ExplanationView {
  import opened Types
  import opened PdfExporter

  /** The `levelConfig` labels of the badges. */
  function BadgeLabel(level: ExplanationLevel): string
  {
    match level
    case ELI5 => "ELI5"
    case Intermediate => "Intermediate"
    case Advanced => "Advanced"
    case Technical => "Technical"
  }

  /** The labels name the levels apart. */
  lemma BadgeLabelInjective(a: ExplanationLevel, b: ExplanationLevel)
    ensures BadgeLabel(a) == BadgeLabel(b) <==> a == b
  {
    if a != b {
      assert BadgeLabel(a)[0] != BadgeLabel(b)[0] || |BadgeLabel(a)| != |BadgeLabel(b)|;
    }
  }

  /** `currentExplanation`: the field of the explanation written for the selected level. */
  function LevelText(e: Explanation, level: ExplanationLevel): string
  {
    match level
    case ELI5 => e.eli5
    case Intermediate => e.intermediate
    case Advanced => e.advanced
    case Technical => e.technicalDepth
  }

  /** Where a level's section sits in the report: the level texts follow the subject and the core message. */
  function LevelSlot(level: ExplanationLevel): (i: nat)
    ensures 2 <= i < 6
  {
    match level
    case ELI5 => 2
    case Intermediate => 3
    case Advanced => 4
    case Technical => 5
  }

  /**
    The screen shows, for every level, the very text the report prints in that
    level's section, before escaping; and the four levels show four different
    fields, so every level text is reachable by exactly one badge.
   */
  lemma LevelTextMatchesReport(e: Explanation, rawTranscript: string, level: ExplanationLevel)
    ensures !IsListSlot(LevelSlot(level))
    ensures Substitution(e, rawTranscript, LevelSlot(level)) == Sanitize(LevelText(e, level))
    ensures forall other :: LevelSlot(other) == LevelSlot(level) ==> other == level
  {
  }

  /** One rendered badge: its level, its React key, its text and whether it is highlighted. */
  datatype Badge = Badge(level: ExplanationLevel, key: string, text: string, active: bool)

  /** The badges, one per enumeration member in declaration order, the selected one active. */
  function Badges(activeLevel: ExplanationLevel): (r: seq<Badge>)
  {
    seq(|AllLevels|, i requires 0 <= i < |AllLevels| =>
      Badge(AllLevels[i], LevelValue(AllLevels[i]), BadgeLabel(AllLevels[i]), AllLevels[i] == activeLevel))
  }

  /** The number of highlighted badges. */
  function ActiveCount(badges: seq<Badge>): nat
  {
    if badges == [] then 0 else (if badges[0].active then 1 else 0) + ActiveCount(badges[1..])
  }

  /**
    Four badges, one per level and each with its level's label, keyed by
    four distinct keys, and exactly one of them active: the one whose level
    is selected.
   */
  lemma BadgesExactlyOneActive(activeLevel: ExplanationLevel)
    ensures |Badges(activeLevel)| == 4
    ensures forall i :: 0 <= i < 4 ==> Badges(activeLevel)[i].level == AllLevels[i]
    ensures forall i :: 0 <= i < 4 ==> Badges(activeLevel)[i].text == BadgeLabel(AllLevels[i])
    ensures forall i :: 0 <= i < 4 ==> (Badges(activeLevel)[i].active <==> AllLevels[i] == activeLevel)
    ensures forall i, j :: 0 <= i < j < 4 ==> Badges(activeLevel)[i].key != Badges(activeLevel)[j].key
    ensures ActiveCount(Badges(activeLevel)) == 1
  {
    var b := Badges(activeLevel);
    forall i, j | 0 <= i < j < 4
      ensures b[i].key != b[j].key
    {
      AllLevelsEnumerates(activeLevel);
      LevelValueInjective(AllLevels[i], AllLevels[j]);
    }
    var b1 := b[1..];
    var b2 := b1[1..];
    var b3 := b2[1..];
    assert b3[1..] == [];
    assert ActiveCount(b3) == (if b[3].active then 1 else 0);
    assert ActiveCount(b2) == (if b[2].active then 1 else 0) + ActiveCount(b3);
    assert ActiveCount(b1) == (if b[1].active then 1 else 0) + ActiveCount(b2);
  }

  /** The export button: enabled with its caption once the renderer is ready, a spinner before. */
  datatype ExportButton = ExportEnabled(caption: string) | ExportWaiting

  /** What the result screen shows. */
  datatype Screen = Screen(
    title: string,
    coreMessage: string,
    exportButton: ExportButton,
    badges: seq<Badge>,
    levelText: string,
    analogy: string,
    example: string,
    counterExample: string,
    practicalExercise: string,
    glossary: seq<GlossaryItem>,
    useCases: seq<string>,
    realWorldImplementation: string,
    historicalContext: string,
    futureImplications: string,
    commonMisconceptions: seq<string>,
    relatedConcepts: seq<string>)

  /** The screen for an explanation, a selected level and the renderer's readiness. */
  function Render(e: Explanation, activeLevel: ExplanationLevel, pdfReady: bool): Screen
  {
    Screen(
      e.subject, e.coreMessage,
      if pdfReady then ExportEnabled("Export to PDF") else ExportWaiting,
      Badges(activeLevel), LevelText(e, activeLevel),
      e.analogy, e.example, e.counterExample, e.practicalExercise,
      e.glossary, e.useCases, e.realWorldImplementation,
      e.historicalContext, e.futureImplications,
      e.commonMisconceptions, e.relatedConcepts)
  }

  /**
    Switching levels changes the badges and the level text and nothing else
    on the screen, and a different level always changes the badges.
   */
  lemma SwitchingLevelChangesOnlyLevelText(e: Explanation, from: ExplanationLevel, to: ExplanationLevel, pdfReady: bool)
    ensures Render(e, to, pdfReady)
      == Render(e, from, pdfReady).(badges := Badges(to), levelText := LevelText(e, to))
    ensures from != to ==> Render(e, to, pdfReady).badges != Render(e, from, pdfReady).badges
  {
    if from != to {
      BadgesExactlyOneActive(from);
      AllLevelsEnumerates(to);
      var i :| 0 <= i < 4 && AllLevels[i] == to;
      assert Badges(to)[i].active && !Badges(from)[i].active;
    }
  }

  /** The export button is usable exactly when the renderer is ready. */
  lemma ExportButtonEnabledIffReady(e: Explanation, activeLevel: ExplanationLevel, pdfReady: bool)
    ensures Render(e, activeLevel, pdfReady).exportButton.ExportEnabled? <==> pdfReady
  {
  }

  /**
    The mounted result screen: the explanation and transcript it was given,
    the selected level, and whether the PDF renderer has finished loading.
   */
  class ResultScreen {
    const explanation: Explanation
    const rawTranscript: string
    var activeLevel: ExplanationLevel
    var pdfReady: bool

    /** Mounting: the intermediate level is selected and the renderer is not yet loaded. */
    constructor(explanation: Explanation, rawTranscript: string)
      ensures this.explanation == explanation && this.rawTranscript == rawTranscript
      ensures activeLevel == Intermediate
      ensures !pdfReady
    {
      this.explanation := explanation;
      this.rawTranscript := rawTranscript;
      activeLevel := Intermediate;
      pdfReady := false;
    }

    /** What is on screen now. */
    function View(): Screen
      reads this
    {
      Render(explanation, activeLevel, pdfReady)
    }

    /** A badge click: only the selected level changes. */
    method SelectLevel(level: ExplanationLevel)
      modifies this
      ensures activeLevel == level
      ensures pdfReady == old(pdfReady)
      ensures View() == old(View()).(badges := Badges(level), levelText := LevelText(explanation, level))
    {
      SwitchingLevelChangesOnlyLevelText(explanation, activeLevel, level, pdfReady);
      activeLevel := level;
    }

    /** The renderer's script has loaded: the export button becomes usable. */
    method RendererLoaded()
      modifies this
      ensures pdfReady
      ensures activeLevel == old(activeLevel)
    {
      pdfReady := true;
    }

    /**
      `handleExport`: nothing is exported while the renderer is loading;
      afterwards the export of this explanation and transcript runs, and it
      in turn does nothing if the renderer is missing from the page.
     */
    method HandleExport(styleSheet: string, rendererLoaded: bool) returns (job: Option<PdfJob>)
      ensures !pdfReady ==> job == None
      ensures pdfReady ==> job == ExportToPdf(styleSheet, explanation, rawTranscript, rendererLoaded)
      ensures job.Some? <==> pdfReady && rendererLoaded
    {
      if pdfReady {
        job := ExportToPdf(styleSheet, explanation, rawTranscript, rendererLoaded);
      } else {
        job := None;
      }
    }
  }
}
