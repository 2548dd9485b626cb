/**
  The shared data contract of the explainer: the explanation record produced
  once per request, and the four difficulty levels the view selects between
  (types.ts).
 */
module Types {

  datatype Option<+T> = None | Some(value: T)

  /** One glossary entry: a term and its definition. */
  datatype GlossaryItem = GlossaryItem(term: string, definition: string)

  /** The `AdvancedExplanation` record, field for field and in declaration order. */
  datatype Explanation = Explanation(
    id: string,
    subject: string,
    coreMessage: string,
    eli5: string,
    intermediate: string,
    advanced: string,
    technicalDepth: string,
    keyTerms: seq<string>,
    glossary: seq<GlossaryItem>,
    analogy: string,
    visualDescription: string,
    example: string,
    counterExample: string,
    realWorldImplementation: string,
    useCases: seq<string>,
    historicalContext: string,
    futureImplications: string,
    commonMisconceptions: seq<string>,
    relatedConcepts: seq<string>,
    practicalExercise: string,
    summary: string)

  /** The `ExplanationLevel` enumeration. */
  datatype ExplanationLevel = ELI5 | Intermediate | Advanced | Technical

  /** The string value behind each enumeration member. */
  function LevelValue(level: ExplanationLevel): (v: string)
  {
    match level
    case ELI5 => "eli5"
    case Intermediate => "intermediate"
    case Advanced => "advanced"
    case Technical => "technical"
  }

  /** Equal string values mean the same member: the values can serve as keys. */
  lemma LevelValueInjective(a: ExplanationLevel, b: ExplanationLevel)
    ensures LevelValue(a) == LevelValue(b) <==> a == b
  {
    if a != b {
      assert LevelValue(a)[0] != LevelValue(b)[0] || |LevelValue(a)| != |LevelValue(b)|;
    }
  }

  /**
    The members in declaration order, which is the order in which the
    enumeration object yields its values.
   */
  const AllLevels: seq<ExplanationLevel> := [ELI5, Intermediate, Advanced, Technical]

  /** Every level is listed, and exactly once. */
  lemma AllLevelsEnumerates(level: ExplanationLevel)
    ensures |AllLevels| == 4
    ensures level in AllLevels
    ensures forall i, j :: 0 <= i < j < |AllLevels| ==> AllLevels[i] != AllLevels[j]
  {
  }
}
