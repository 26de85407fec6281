/**
 * Form validators (src/utils/validation.ts). Each takes a partial candidate record,
 * in which every property may be absent, and returns `{isValid, errors}` where
 * `errors` maps a field name to a message. Validators never fail: a missing or blank
 * field is reported as a keyed message.
 */
module Validation {
  import opened Wrappers
  import opened CourseTypes

  // ---------------------------------------------------------------------------
  // `String.prototype.trim` and blankness

  /** The ECMAScript WhiteSpace and LineTerminator code points, which `trim` strips. */
  predicate IsTrimmable(c: char)
  {
    || c == '\t' || c == '\U{000B}' || c == '\U{000C}' || c == ' ' || c == '\U{00A0}' || c == '\U{FEFF}'
    || c == '\n' || c == '\r' || c == '\U{2028}' || c == '\U{2029}'
    || c == '\U{1680}' || ('\U{2000}' <= c <= '\U{200A}') || c == '\U{202F}' || c == '\U{205F}' || c == '\U{3000}'
  }

  ghost predicate AllWhitespace(s: string)
  {
    forall i :: 0 <= i < |s| ==> IsTrimmable(s[i])
  }

  /** Strips leading whitespace: what is left is empty or starts with a non-whitespace character. */
  function TrimStart(s: string): (r: string)
    ensures |r| <= |s|
    ensures r == [] <==> AllWhitespace(s)
    ensures r != [] ==> !IsTrimmable(r[0])
  {
    if s != [] && IsTrimmable(s[0]) then TrimStart(s[1..]) else s
  }

  /** Strips trailing whitespace: what is left is empty or ends with a non-whitespace character. */
  function TrimEnd(s: string): (r: string)
    ensures |r| <= |s|
    ensures r == [] || !IsTrimmable(r[|r| - 1])
    ensures s != [] && !IsTrimmable(s[0]) ==> r != [] && r[0] == s[0]
  {
    if s != [] && IsTrimmable(s[|s| - 1]) then TrimEnd(s[..|s| - 1]) else s
  }

  /** `TrimStart` keeps a suffix of `s` and drops only whitespace before it. */
  lemma {:induction false} TrimStartDropsWhitespace(s: string)
    ensures TrimStart(s) == s[|s| - |TrimStart(s)|..]
    ensures forall i :: 0 <= i < |s| - |TrimStart(s)| ==> IsTrimmable(s[i])
  {
    if s != [] && IsTrimmable(s[0]) {
      var t := s[1..];
      TrimStartDropsWhitespace(t);
      assert t[|t| - |TrimStart(t)|..] == s[|s| - |TrimStart(t)|..];
      forall i | 1 <= i < |s| - |TrimStart(t)| ensures IsTrimmable(s[i]) {
        assert s[i] == t[i - 1];
      }
    }
  }

  /** `TrimEnd` keeps a prefix of `s` and drops only whitespace after it. */
  lemma {:induction false} TrimEndDropsWhitespace(s: string)
    ensures TrimEnd(s) == s[..|TrimEnd(s)|]
    ensures forall i :: |TrimEnd(s)| <= i < |s| ==> IsTrimmable(s[i])
  {
    if s != [] && IsTrimmable(s[|s| - 1]) {
      var t := s[..|s| - 1];
      TrimEndDropsWhitespace(t);
      assert t[..|TrimEnd(t)|] == s[..|TrimEnd(t)|];
      forall i | |TrimEnd(t)| <= i < |t| ensures IsTrimmable(s[i]) {
        assert s[i] == t[i];
      }
    }
  }

  /**
   * `s.trim()`: `s` with its leading and trailing whitespace removed. The result is empty
   * exactly for all-whitespace strings, and otherwise starts and ends with a character
   * that is not whitespace.
   */
  function Trim(s: string): (r: string)
    ensures |r| <= |s|
    ensures r == [] <==> AllWhitespace(s)
    ensures r != [] ==> !IsTrimmable(r[0]) && !IsTrimmable(r[|r| - 1])
  {
    var t := TrimStart(s);
    var r := TrimEnd(t);
    TrimEndDropsWhitespace(t);
    r
  }

  /**
   * `s.trim()` cuts `s` into an all-whitespace prefix of length `k`, the result, and an
   * all-whitespace suffix.
   */
  lemma TrimIsSlice(s: string) returns (k: nat)
    ensures k + |Trim(s)| <= |s|
    ensures Trim(s) == s[k..k + |Trim(s)|]
    ensures forall i :: 0 <= i < k ==> IsTrimmable(s[i])
    ensures forall i :: k + |Trim(s)| <= i < |s| ==> IsTrimmable(s[i])
  {
    var t := TrimStart(s);
    TrimStartDropsWhitespace(s);
    TrimEndDropsWhitespace(t);
    k := |s| - |t|;
    TrimmedTail(s, k, t, TrimEnd(t));
  }

  /** A prefix `r` of the suffix `t == s[k..]` followed by whitespace in `t` is a slice of `s` followed by whitespace. */
  lemma TrimmedTail(s: string, k: nat, t: string, r: string)
    requires k <= |s| && t == s[k..]
    requires |r| <= |t| && r == t[..|r|]
    requires forall i :: |r| <= i < |t| ==> IsTrimmable(t[i])
    ensures r == s[k..k + |r|]
    ensures forall i :: k + |r| <= i < |s| ==> IsTrimmable(s[i])
  {
    forall i | k + |r| <= i < |s| ensures IsTrimmable(s[i]) {
      assert s[i] == t[i - k];
    }
  }

  /** `!x || x.trim() === ''`: the property is absent or all whitespace. */
  function MissingText(x: Option<string>): (r: bool)
    ensures r <==> x.None? || AllWhitespace(x.value)
  {
    x.None? || x.value == "" || Trim(x.value) == ""
  }

  /**
   * `!x` for an optional tag: absent or the empty string (the only falsy strings). A missing
   * tag also counts as missing text, and is the name of no attachment or assessment type.
   */
  function MissingTag(x: Option<string>): (r: bool)
    ensures !r <==> x.Some? && |x.value| > 0
    ensures r ==> MissingText(x)
    ensures r ==> ParseAttachmentType(x.GetOr("")).None? && ParseFluidDefenseType(x.GetOr("")).None?
  {
    x.None? || x.value == ""
  }

  // ---------------------------------------------------------------------------
  // Results

  datatype ValidationResult = ValidationResult(isValid: bool, errors: map<string, string>)

  /** `{ isValid: Object.keys(errors).length === 0, errors }`: valid exactly when nothing was reported. */
  function Finish(errors: map<string, string>): (r: ValidationResult)
    ensures r.errors == errors
    ensures r.isValid <==> errors == map[]
  {
    ValidationResult(|errors| == 0, errors)
  }

  /** `if (failed) errors[field] = message` */
  function Flag(errors: map<string, string>, failed: bool, field: string, message: string): (r: map<string, string>)
    ensures field in r <==> failed || field in errors
    ensures failed ==> r[field] == message
    ensures forall k :: k != field ==> (k in r <==> k in errors)
    ensures forall k :: k in errors && k != field ==> r[k] == errors[k]
    ensures |r| > 0 <==> failed || |errors| > 0
  {
    if failed then errors[field := message] else errors
  }

  // ---------------------------------------------------------------------------
  // Chapters

  /** A `Partial<Chapter>` as far as the validator reads it. */
  datatype ChapterDraft = ChapterDraft(
    title: Option<string>,
    sequenceOrder: Option<int>,
    learningObjective: Option<string>,
    endCodeState: Option<string>)

  /** `course.chapters.some(ch => ch.sequenceOrder === order && ch.id !== currentChapterId)` */
  function HasOtherWithOrder(chapters: seq<Chapter>, order: int, currentChapterId: Option<int>): (r: bool)
    ensures r <==> exists i :: 0 <= i < |chapters| && chapters[i].sequenceOrder == order
                               && Some(chapters[i].id) != currentChapterId
  {
    if chapters == [] then false
    else if chapters[0].sequenceOrder == order && Some(chapters[0].id) != currentChapterId then true
    else
      var r := HasOtherWithOrder(chapters[1..], order, currentChapterId);
      assert forall i :: 1 <= i < |chapters| ==> chapters[i] == chapters[1..][i - 1];
      r
  }

  function ValidateChapter(chapter: ChapterDraft, course: Option<CourseManifest>, currentChapterId: Option<int>)
    : (r: ValidationResult)
    ensures r.isValid <==> |r.errors| == 0
    ensures r.errors.Keys <= {"title", "learningObjective", "sequenceOrder"}
    ensures "title" in r.errors ==> r.errors["title"] == "Title is required"
    ensures "learningObjective" in r.errors ==> r.errors["learningObjective"] == "Learning objective is required"
    ensures "sequenceOrder" in r.errors ==> r.errors["sequenceOrder"] == "Sequence order must be unique"
    ensures "title" in r.errors <==> MissingText(chapter.title)
    ensures "learningObjective" in r.errors <==> MissingText(chapter.learningObjective)
    ensures "sequenceOrder" in r.errors <==>
              chapter.sequenceOrder.Some? && course.Some?
              && HasOtherWithOrder(course.value.chapters, chapter.sequenceOrder.value, currentChapterId)
    ensures r.isValid <==>
              && !MissingText(chapter.title)
              && !MissingText(chapter.learningObjective)
              && !(chapter.sequenceOrder.Some? && course.Some?
                   && HasOtherWithOrder(course.value.chapters, chapter.sequenceOrder.value, currentChapterId))
  {
    var e0: map<string, string> := map[];
    var e1 := Flag(e0, MissingText(chapter.title), "title", "Title is required");
    var e2 := Flag(e1, MissingText(chapter.learningObjective), "learningObjective", "Learning objective is required");
    var duplicate := chapter.sequenceOrder.Some? && course.Some?
                     && HasOtherWithOrder(course.value.chapters, chapter.sequenceOrder.value, currentChapterId);
    var e3 := Flag(e2, duplicate, "sequenceOrder", "Sequence order must be unique");
    assert "title" in e3 ==> |e3| > 0;
    assert "learningObjective" in e3 ==> |e3| > 0;
    assert "sequenceOrder" in e3 ==> |e3| > 0;
    Finish(e3)
  }

  /** No two chapters of the course share a `sequenceOrder`. */
  ghost predicate SequenceOrdersUnique(course: CourseManifest)
  {
    forall i, j :: 0 <= i < j < |course.chapters| ==>
      course.chapters[i].sequenceOrder != course.chapters[j].sequenceOrder
  }

  /**
   * Editing chapter `k` and re-submitting its own order draws no `sequenceOrder` error
   * while the orders are unique; adding (no current id) with that order does.
   */
  lemma OwnSequenceOrderAccepted(course: CourseManifest, k: nat, chapter: ChapterDraft)
    requires k < |course.chapters| && SequenceOrdersUnique(course)
    requires chapter.sequenceOrder == Some(course.chapters[k].sequenceOrder)
    ensures "sequenceOrder" !in ValidateChapter(chapter, Some(course), Some(course.chapters[k].id)).errors
    ensures "sequenceOrder" in ValidateChapter(chapter, Some(course), None).errors
  {
    var cs := course.chapters;
    assert forall i :: 0 <= i < |cs| && i != k ==> cs[i].sequenceOrder != cs[k].sequenceOrder by {
      forall i | 0 <= i < |cs| && i != k ensures cs[i].sequenceOrder != cs[k].sequenceOrder {
        if i < k {
          assert cs[i].sequenceOrder != cs[k].sequenceOrder;
        } else {
          assert cs[k].sequenceOrder != cs[i].sequenceOrder;
        }
      }
    }
    assert HasOtherWithOrder(cs, cs[k].sequenceOrder, None) by {
      assert cs[k].sequenceOrder == cs[k].sequenceOrder && Some(cs[k].id) != None;
    }
  }

  // ---------------------------------------------------------------------------
  // Units

  /** A `Partial<Unit>` as far as the validator reads it. */
  datatype UnitDraft = UnitDraft(title: Option<string>, directive: Option<string>, endCodeState: Option<string>)

  function ValidateUnit(unit: UnitDraft): (r: ValidationResult)
    ensures r.isValid <==> |r.errors| == 0
    ensures r.errors.Keys <= {"title", "directive"}
    ensures "title" in r.errors ==> r.errors["title"] == "Title is required"
    ensures "directive" in r.errors ==> r.errors["directive"] == "Directive is required"
    ensures "title" in r.errors <==> MissingText(unit.title)
    ensures "directive" in r.errors <==> MissingText(unit.directive)
    ensures r.isValid <==> !MissingText(unit.title) && !MissingText(unit.directive)
  {
    var e0: map<string, string> := map[];
    var e1 := Flag(e0, MissingText(unit.title), "title", "Title is required");
    var e2 := Flag(e1, MissingText(unit.directive), "directive", "Directive is required");
    assert "title" in e2 ==> |e2| > 0;
    assert "directive" in e2 ==> |e2| > 0;
    Finish(e2)
  }

  // ---------------------------------------------------------------------------
  // Attachments

  /** A `Partial<Attachment>` as the form submits it; `typeTag` holds the raw `type` string. */
  datatype AttachmentDraft = AttachmentDraft(
    typeTag: Option<string>,
    note: Option<string>,
    filePath: Option<string>,
    commitHash: Option<string>)

  function ValidateAttachment(attachment: AttachmentDraft): (r: ValidationResult)
    ensures r.isValid <==> |r.errors| == 0
    ensures r.errors.Keys <= {"type", "note", "filePath"}
    ensures "type" in r.errors ==> r.errors["type"] == "Attachment type is required"
    ensures "note" in r.errors ==> r.errors["note"] == "Note is required"
    ensures "filePath" in r.errors ==> r.errors["filePath"] == "File path is required for CODE_REF"
    ensures "type" in r.errors <==> MissingTag(attachment.typeTag)
    ensures "note" in r.errors <==> MissingText(attachment.note)
    ensures "filePath" in r.errors <==> attachment.typeTag == Some("CODE_REF") && MissingText(attachment.filePath)
    ensures r.isValid <==>
              && !MissingTag(attachment.typeTag)
              && !MissingText(attachment.note)
              && (attachment.typeTag == Some("CODE_REF") ==> !MissingText(attachment.filePath))
  {
    var e0: map<string, string> := map[];
    var e1 := Flag(e0, MissingTag(attachment.typeTag), "type", "Attachment type is required");
    var e2 := Flag(e1, MissingText(attachment.note), "note", "Note is required");
    var codeRef := attachment.typeTag.Some? && ParseAttachmentType(attachment.typeTag.value) == Some(CodeRef);
    var e3 := Flag(e2, codeRef && MissingText(attachment.filePath),
                   "filePath", "File path is required for CODE_REF");
    assert "type" in e3 ==> |e3| > 0;
    assert "note" in e3 ==> |e3| > 0;
    assert "filePath" in e3 ==> |e3| > 0;
    Finish(e3)
  }

  /** A DOC_REF draft is never asked for a file path, whatever it carries. */
  lemma DocRefNeedsNoFilePath(attachment: AttachmentDraft)
    requires attachment.typeTag == Some(AttachmentTypeName(DocRef))
    ensures "filePath" !in ValidateAttachment(attachment).errors
    ensures ValidateAttachment(attachment).isValid <==> !MissingText(attachment.note)
  {
  }

  // ---------------------------------------------------------------------------
  // Assessment items

  /** A `Partial<FluidDefense>` as the form submits it; `typeTag` holds the raw `type` string. */
  datatype FluidDefenseDraft = FluidDefenseDraft(
    typeTag: Option<string>,
    question: Option<string>,
    options: Option<seq<string>>,
    correctOptionIndex: Option<int>,
    startState: Option<string>,
    solutionState: Option<string>,
    successCriteria: Option<string>,
    evaluationCriteria: Option<seq<string>>)

  /** `undefined`, negative, or (when options are present) past the last option. */
  predicate BadOptionIndex(mcq: FluidDefenseDraft)
  {
    || mcq.correctOptionIndex.None?
    || mcq.correctOptionIndex.value < 0
    || (mcq.options.Some? && mcq.correctOptionIndex.value >= |mcq.options.value|)
  }

  function ValidateMCQ(mcq: FluidDefenseDraft): (r: ValidationResult)
    ensures r.isValid <==> |r.errors| == 0
    ensures r.errors.Keys <= {"question", "options", "correctOptionIndex"}
    ensures "question" in r.errors ==> r.errors["question"] == "Question is required"
    ensures "options" in r.errors ==> r.errors["options"] == "At least 2 options are required"
    ensures "correctOptionIndex" in r.errors ==> r.errors["correctOptionIndex"] == "Invalid correct option index"
    ensures "question" in r.errors <==> MissingText(mcq.question)
    ensures "options" in r.errors <==> mcq.options.None? || |mcq.options.value| < 2
    ensures "correctOptionIndex" in r.errors <==> BadOptionIndex(mcq)
    ensures r.isValid ==> mcq.options.Some? && mcq.correctOptionIndex.Some?
                          && 2 <= |mcq.options.value| && 0 <= mcq.correctOptionIndex.value < |mcq.options.value|
  {
    var e0: map<string, string> := map[];
    var e1 := Flag(e0, MissingText(mcq.question), "question", "Question is required");
    var e2 := Flag(e1, mcq.options.None? || |mcq.options.value| < 2, "options", "At least 2 options are required");
    var e3 := Flag(e2, BadOptionIndex(mcq), "correctOptionIndex", "Invalid correct option index");
    assert "question" in e3 ==> |e3| > 0;
    assert "options" in e3 ==> |e3| > 0;
    assert "correctOptionIndex" in e3 ==> |e3| > 0;
    Finish(e3)
  }

  function ValidateCodingChallenge(challenge: FluidDefenseDraft): (r: ValidationResult)
    ensures r.isValid <==> |r.errors| == 0
    ensures r.errors.Keys <= {"question", "startState", "solutionState", "successCriteria"}
    ensures "question" in r.errors ==> r.errors["question"] == "Question is required"
    ensures "startState" in r.errors ==> r.errors["startState"] == "Start state is required"
    ensures "solutionState" in r.errors ==> r.errors["solutionState"] == "Solution state is required"
    ensures "successCriteria" in r.errors ==> r.errors["successCriteria"] == "Success criteria is required"
    ensures "question" in r.errors <==> MissingText(challenge.question)
    ensures "startState" in r.errors <==> MissingText(challenge.startState)
    ensures "solutionState" in r.errors <==> MissingText(challenge.solutionState)
    ensures "successCriteria" in r.errors <==> MissingText(challenge.successCriteria)
    ensures r.isValid <==>
              && !MissingText(challenge.question)
              && !MissingText(challenge.startState)
              && !MissingText(challenge.solutionState)
              && !MissingText(challenge.successCriteria)
  {
    var e0: map<string, string> := map[];
    var e1 := Flag(e0, MissingText(challenge.question), "question", "Question is required");
    var e2 := Flag(e1, MissingText(challenge.startState), "startState", "Start state is required");
    var e3 := Flag(e2, MissingText(challenge.solutionState), "solutionState", "Solution state is required");
    var e4 := Flag(e3, MissingText(challenge.successCriteria), "successCriteria", "Success criteria is required");
    assert "question" in e4 ==> |e4| > 0;
    assert "startState" in e4 ==> |e4| > 0;
    assert "solutionState" in e4 ==> |e4| > 0;
    assert "successCriteria" in e4 ==> |e4| > 0;
    Finish(e4)
  }

  function ValidateOpenQuestion(question: FluidDefenseDraft): (r: ValidationResult)
    ensures r.isValid <==> |r.errors| == 0
    ensures r.errors.Keys <= {"question", "evaluationCriteria"}
    ensures "question" in r.errors ==> r.errors["question"] == "Question is required"
    ensures "evaluationCriteria" in r.errors ==> r.errors["evaluationCriteria"] == "At least one evaluation criterion is required"
    ensures "question" in r.errors <==> MissingText(question.question)
    ensures "evaluationCriteria" in r.errors <==> question.evaluationCriteria.None? || |question.evaluationCriteria.value| == 0
    ensures r.isValid <==>
              && !MissingText(question.question)
              && question.evaluationCriteria.Some? && |question.evaluationCriteria.value| >= 1
  {
    var e0: map<string, string> := map[];
    var e1 := Flag(e0, MissingText(question.question), "question", "Question is required");
    var e2 := Flag(e1, question.evaluationCriteria.None? || |question.evaluationCriteria.value| == 0,
                   "evaluationCriteria", "At least one evaluation criterion is required");
    assert "question" in e2 ==> |e2| > 0;
    assert "evaluationCriteria" in e2 ==> |e2| > 0;
    Finish(e2)
  }

  /** Dispatch on the raw `type` tag; a missing or unknown tag yields the single key `type`. */
  function ValidateFluidDefense(defense: FluidDefenseDraft): (r: ValidationResult)
    ensures r.isValid <==> |r.errors| == 0
    ensures MissingTag(defense.typeTag) ==> !r.isValid && r.errors == map["type" := "FluidDefense type is required"]
    ensures !MissingTag(defense.typeTag) && ParseFluidDefenseType(defense.typeTag.value).None? ==>
              !r.isValid && r.errors == map["type" := "Invalid FluidDefense type"]
    ensures defense.typeTag == Some(FluidDefenseTypeName(MCQ)) ==> r == ValidateMCQ(defense)
    ensures defense.typeTag == Some(FluidDefenseTypeName(CodingChallenge)) ==> r == ValidateCodingChallenge(defense)
    ensures defense.typeTag == Some(FluidDefenseTypeName(OpenQuestion)) ==> r == ValidateOpenQuestion(defense)
  {
    if MissingTag(defense.typeTag) then
      ValidationResult(false, map["type" := "FluidDefense type is required"])
    else
      match ParseFluidDefenseType(defense.typeTag.value)
      case Some(MCQ) => ValidateMCQ(defense)
      case Some(CodingChallenge) => ValidateCodingChallenge(defense)
      case Some(OpenQuestion) => ValidateOpenQuestion(defense)
      case None => ValidationResult(false, map["type" := "Invalid FluidDefense type"])
  }

  /** Of every validator: `isValid` exactly when no key was reported, and the only key a
      type failure reports is `type`. */
  lemma FluidDefenseTypeErrorIsAlone(defense: FluidDefenseDraft)
    requires MissingTag(defense.typeTag) || ParseFluidDefenseType(defense.typeTag.value).None?
    ensures ValidateFluidDefense(defense).errors.Keys == {"type"}
  {
  }

  /** Two options with index 1 pass; index 2 is flagged, and only the index is. */
  lemma MCQIndexBoundary(q: string)
    requires !AllWhitespace(q)
    ensures ValidateFluidDefense(FluidDefenseDraft(Some("MCQ"), Some(q), Some(["a", "b"]), Some(1), None, None, None, None)).isValid
    ensures var r := ValidateFluidDefense(FluidDefenseDraft(Some("MCQ"), Some(q), Some(["a", "b"]), Some(2), None, None, None, None));
            !r.isValid && r.errors.Keys == {"correctOptionIndex"}
  {
  }
}
