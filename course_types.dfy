/**
 * The course manifest tree: Course -> Chapter -> (Unit -> Attachment, FluidDefense),
 * with the two tagged unions and their type guards (src/types/course.ts).
 * Numbers that the source uses as identifiers or positions are modelled as `int`.
 */
module CourseTypes {
  import opened Wrappers

  datatype Repository = Repository(repoUrl: string, branch: string, devContainerConfigUrl: string)

  datatype Speaker = Speaker(id: int, name: string, personality: string)

  datatype CapstoneProject = CapstoneProject(title: string, description: string)

  datatype NorthStar = NorthStar(
    transformationDescription: string,
    targetAudience: string,
    prerequisites: string,
    gapAndFriction: string,
    capstoneProject: CapstoneProject)

  datatype RealizationPoint = RealizationPoint(concept: string, suggestedApproach: string, hints: seq<string>)

  /** The `type` tag of an attachment. */
  datatype AttachmentType = CodeRef | DocRef

  /** Tagged union: only a CODE_REF attachment carries a file path and an optional commit hash. */
  datatype Attachment =
    | CodeRefAttachment(id: int, note: string, filePath: string, commitHash: Option<string>)
    | DocRefAttachment(id: int, note: string)

  /** The `type` tag of an assessment item. */
  datatype FluidDefenseType = MCQ | CodingChallenge | OpenQuestion

  /**
   * Tagged union of assessment items; every variant shares `id`, `question` and the
   * optional `progressiveHints`, and only the MCQ variant carries options.
   */
  datatype FluidDefense =
    | MCQFluidDefense(
        id: int, question: string, progressiveHints: Option<seq<string>>,
        options: seq<string>, correctOptionIndex: int, followUpQuestion: Option<string>)
    | CodingChallengeFluidDefense(
        id: int, question: string, progressiveHints: Option<seq<string>>,
        startState: string, solutionState: string, successCriteria: string)
    | OpenQuestionFluidDefense(
        id: int, question: string, progressiveHints: Option<seq<string>>,
        evaluationCriteria: seq<string>)

  /** A unit owns attachments only; assessments hang off the chapter. */
  datatype Unit = Unit(
    id: int,
    title: string,
    directive: string,
    realizationPoints: seq<RealizationPoint>,
    attachments: seq<Attachment>,
    endCodeState: string)

  datatype Chapter = Chapter(
    id: int,
    title: string,
    sequenceOrder: int,
    learningObjective: string,
    endCodeState: string,
    units: seq<Unit>,
    fluidDefense: seq<FluidDefense>)

  datatype CourseManifest = CourseManifest(
    id: int,
    title: string,
    description: string,
    repository: Repository,
    initialCodeState: string,
    speakers: seq<Speaker>,
    northStar: NorthStar,
    chapters: seq<Chapter>)

  // The `id` projections the generic collection helpers address items by.

  function ChapterId(c: Chapter): int { c.id }
  function UnitId(u: Unit): int { u.id }
  function AttachmentId(a: Attachment): int { a.id }
  function FluidDefenseId(d: FluidDefense): int { d.id }

  // Tag names as they appear in the serialized `type` field.

  function AttachmentTypeName(t: AttachmentType): string {
    match t
    case CodeRef => "CODE_REF"
    case DocRef => "DOC_REF"
  }

  function FluidDefenseTypeName(t: FluidDefenseType): string {
    match t
    case MCQ => "MCQ"
    case CodingChallenge => "CODING_CHALLENGE"
    case OpenQuestion => "OPEN_QUESTION"
  }

  /** Reads a `type` string back into a tag; any other string is not an attachment type. */
  function ParseAttachmentType(s: string): (r: Option<AttachmentType>)
    ensures forall t :: r == Some(t) <==> s == AttachmentTypeName(t)
  {
    if s == "CODE_REF" then Some(CodeRef)
    else if s == "DOC_REF" then Some(DocRef)
    else None
  }

  /** Reads a `type` string back into a tag; any other string is not an assessment type. */
  function ParseFluidDefenseType(s: string): (r: Option<FluidDefenseType>)
    ensures forall t :: r == Some(t) <==> s == FluidDefenseTypeName(t)
  {
    if s == "MCQ" then Some(MCQ)
    else if s == "CODING_CHALLENGE" then Some(CodingChallenge)
    else if s == "OPEN_QUESTION" then Some(OpenQuestion)
    else None
  }

  /** The `type` field of an attachment. */
  function AttachmentTypeOf(a: Attachment): AttachmentType {
    match a
    case CodeRefAttachment(_, _, _, _) => CodeRef
    case DocRefAttachment(_, _) => DocRef
  }

  /** The `type` field of an assessment item. */
  function FluidDefenseTypeOf(d: FluidDefense): FluidDefenseType {
    match d
    case MCQFluidDefense(_, _, _, _, _, _) => MCQ
    case CodingChallengeFluidDefense(_, _, _, _, _, _) => CodingChallenge
    case OpenQuestionFluidDefense(_, _, _, _) => OpenQuestion
  }

  // The five type guards compare the `type` tag, as the source does; each holds exactly
  // for the variant it narrows to.

  function IsCodeRefAttachment(a: Attachment): (r: bool)
    ensures r <==> a.CodeRefAttachment?
  {
    AttachmentTypeOf(a) == CodeRef
  }

  function IsDocRefAttachment(a: Attachment): (r: bool)
    ensures r <==> a.DocRefAttachment?
  {
    AttachmentTypeOf(a) == DocRef
  }

  function IsMCQFluidDefense(d: FluidDefense): (r: bool)
    ensures r <==> d.MCQFluidDefense?
  {
    FluidDefenseTypeOf(d) == MCQ
  }

  function IsCodingChallengeFluidDefense(d: FluidDefense): (r: bool)
    ensures r <==> d.CodingChallengeFluidDefense?
  {
    FluidDefenseTypeOf(d) == CodingChallenge
  }

  function IsOpenQuestionFluidDefense(d: FluidDefense): (r: bool)
    ensures r <==> d.OpenQuestionFluidDefense?
  {
    FluidDefenseTypeOf(d) == OpenQuestion
  }

  /** Exactly one of the two attachment guards holds. */
  lemma AttachmentGuardsPartition(a: Attachment)
    ensures IsCodeRefAttachment(a) != IsDocRefAttachment(a)
  {
  }

  /** Exactly one of the three assessment guards holds. */
  lemma FluidDefenseGuardsPartition(d: FluidDefense)
    ensures (if IsMCQFluidDefense(d) then 1 else 0)
          + (if IsCodingChallengeFluidDefense(d) then 1 else 0)
          + (if IsOpenQuestionFluidDefense(d) then 1 else 0) == 1
  {
  }
}
