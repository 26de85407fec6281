/**
 * The new `course` value each store action computes (src/store/courseStore.ts).
 * Every action rebuilds only the path from the root to the addressed node by
 * composing `UpdateItem` and `DeleteItem`; a stale or missing id matches nothing,
 * so the action leaves the course as it was.
 */
module CourseEdits {
  import opened Wrappers
  import opened CourseTypes
  import opened CourseHelpers

  // ---------------------------------------------------------------------------
  // Payloads

  /** `Omit<Chapter, 'id' | 'units' | 'fluidDefense'>` */
  datatype ChapterFields = ChapterFields(title: string, sequenceOrder: int, learningObjective: string, endCodeState: string)

  /** `Partial<Omit<Chapter, 'id' | 'units' | 'fluidDefense'>>` */
  datatype ChapterUpdate = ChapterUpdate(
    title: Option<string>, sequenceOrder: Option<int>, learningObjective: Option<string>, endCodeState: Option<string>)

  /** `Omit<Unit, 'id' | 'attachments'>` */
  datatype UnitFields = UnitFields(
    title: string, directive: string, realizationPoints: seq<RealizationPoint>, endCodeState: string)

  /** `Partial<Omit<Unit, 'id' | 'attachments'>>` */
  datatype UnitUpdate = UnitUpdate(
    title: Option<string>, directive: Option<string>,
    realizationPoints: Option<seq<RealizationPoint>>, endCodeState: Option<string>)

  /** The same-variant part of an attachment update (the `type` tag is not modelled). */
  datatype AttachmentUpdate = AttachmentUpdate(note: Option<string>, filePath: Option<string>, commitHash: Option<string>)

  /** The same-variant part of an assessment update (the `type` tag is not modelled). */
  datatype FluidDefenseUpdate = FluidDefenseUpdate(
    question: Option<string>,
    progressiveHints: Option<seq<string>>,
    options: Option<seq<string>>,
    correctOptionIndex: Option<int>,
    followUpQuestion: Option<string>,
    startState: Option<string>,
    solutionState: Option<string>,
    successCriteria: Option<string>,
    evaluationCriteria: Option<seq<string>>)

  /** The top-level fields the metadata form submits; `id` and `chapters` are never touched. */
  datatype MetadataUpdate = MetadataUpdate(
    title: Option<string>,
    description: Option<string>,
    repository: Option<Repository>,
    initialCodeState: Option<string>,
    speakers: Option<seq<Speaker>>,
    northStar: Option<NorthStar>)

  // ---------------------------------------------------------------------------
  // The spreads `{ ...item, ...updates }`: present fields overwrite, absent ones stay.

  function ApplyChapterUpdate(ch: Chapter, u: ChapterUpdate): (r: Chapter)
    ensures r.id == ch.id && r.units == ch.units && r.fluidDefense == ch.fluidDefense
    ensures r.title == (if u.title.Some? then u.title.value else ch.title)
    ensures r.sequenceOrder == (if u.sequenceOrder.Some? then u.sequenceOrder.value else ch.sequenceOrder)
    ensures r.learningObjective == (if u.learningObjective.Some? then u.learningObjective.value else ch.learningObjective)
    ensures r.endCodeState == (if u.endCodeState.Some? then u.endCodeState.value else ch.endCodeState)
  {
    ch.(title := u.title.GetOr(ch.title),
        sequenceOrder := u.sequenceOrder.GetOr(ch.sequenceOrder),
        learningObjective := u.learningObjective.GetOr(ch.learningObjective),
        endCodeState := u.endCodeState.GetOr(ch.endCodeState))
  }

  function ApplyUnitUpdate(un: Unit, u: UnitUpdate): (r: Unit)
    ensures r.id == un.id && r.attachments == un.attachments
    ensures r.title == (if u.title.Some? then u.title.value else un.title)
    ensures r.directive == (if u.directive.Some? then u.directive.value else un.directive)
    ensures r.realizationPoints == (if u.realizationPoints.Some? then u.realizationPoints.value else un.realizationPoints)
    ensures r.endCodeState == (if u.endCodeState.Some? then u.endCodeState.value else un.endCodeState)
  {
    un.(title := u.title.GetOr(un.title),
        directive := u.directive.GetOr(un.directive),
        realizationPoints := u.realizationPoints.GetOr(un.realizationPoints),
        endCodeState := u.endCodeState.GetOr(un.endCodeState))
  }

  function ApplyAttachmentUpdate(a: Attachment, u: AttachmentUpdate): (r: Attachment)
    ensures r.id == a.id && AttachmentTypeOf(r) == AttachmentTypeOf(a)
    ensures r.note == (if u.note.Some? then u.note.value else a.note)
    ensures r.CodeRefAttachment? ==>
              && r.filePath == (if u.filePath.Some? then u.filePath.value else a.filePath)
              && r.commitHash == (if u.commitHash.Some? then u.commitHash else a.commitHash)
  {
    match a
    case CodeRefAttachment(id, note, filePath, commitHash) =>
      CodeRefAttachment(id, u.note.GetOr(note), u.filePath.GetOr(filePath),
                        if u.commitHash.Some? then u.commitHash else commitHash)
    case DocRefAttachment(id, note) =>
      DocRefAttachment(id, u.note.GetOr(note))
  }

  function ApplyFluidDefenseUpdate(d: FluidDefense, u: FluidDefenseUpdate): (r: FluidDefense)
    ensures r.id == d.id && FluidDefenseTypeOf(r) == FluidDefenseTypeOf(d)
    ensures r.question == (if u.question.Some? then u.question.value else d.question)
    ensures r.progressiveHints == (if u.progressiveHints.Some? then u.progressiveHints else d.progressiveHints)
    ensures r.MCQFluidDefense? ==>
              && r.options == (if u.options.Some? then u.options.value else d.options)
              && r.correctOptionIndex == (if u.correctOptionIndex.Some? then u.correctOptionIndex.value else d.correctOptionIndex)
              && r.followUpQuestion == (if u.followUpQuestion.Some? then u.followUpQuestion else d.followUpQuestion)
    ensures r.CodingChallengeFluidDefense? ==>
              && r.startState == (if u.startState.Some? then u.startState.value else d.startState)
              && r.solutionState == (if u.solutionState.Some? then u.solutionState.value else d.solutionState)
              && r.successCriteria == (if u.successCriteria.Some? then u.successCriteria.value else d.successCriteria)
    ensures r.OpenQuestionFluidDefense? ==>
              r.evaluationCriteria == (if u.evaluationCriteria.Some? then u.evaluationCriteria.value else d.evaluationCriteria)
  {
    var question := u.question.GetOr(d.question);
    var hints := if u.progressiveHints.Some? then u.progressiveHints else d.progressiveHints;
    match d
    case MCQFluidDefense(id, _, _, options, index, followUp) =>
      MCQFluidDefense(id, question, hints, u.options.GetOr(options), u.correctOptionIndex.GetOr(index),
                      if u.followUpQuestion.Some? then u.followUpQuestion else followUp)
    case CodingChallengeFluidDefense(id, _, _, start, solution, criteria) =>
      CodingChallengeFluidDefense(id, question, hints, u.startState.GetOr(start),
                                  u.solutionState.GetOr(solution), u.successCriteria.GetOr(criteria))
    case OpenQuestionFluidDefense(id, _, _, criteria) =>
      OpenQuestionFluidDefense(id, question, hints, u.evaluationCriteria.GetOr(criteria))
  }

  // ---------------------------------------------------------------------------
  // Frames: what an action may change

  /** Nothing but the chapters with id `cid` differ; the chapter list keeps its length and ids. */
  ghost predicate SameOutsideChapter(c: CourseManifest, r: CourseManifest, cid: int)
  {
    && r.(chapters := c.chapters) == c
    && |r.chapters| == |c.chapters|
    && forall i :: 0 <= i < |c.chapters| ==>
         && r.chapters[i].id == c.chapters[i].id
         && (c.chapters[i].id != cid ==> r.chapters[i] == c.chapters[i])
  }

  /** As `SameOutsideChapter`, and inside chapter `cid` only `units` differ. */
  ghost predicate OnlyUnitsChange(c: CourseManifest, r: CourseManifest, cid: int)
  {
    && SameOutsideChapter(c, r, cid)
    && forall i :: 0 <= i < |c.chapters| ==> r.chapters[i].(units := c.chapters[i].units) == c.chapters[i]
  }

  /** As `SameOutsideChapter`, and inside chapter `cid` only `fluidDefense` differs. */
  ghost predicate OnlyFluidDefenseChanges(c: CourseManifest, r: CourseManifest, cid: int)
  {
    && SameOutsideChapter(c, r, cid)
    && forall i :: 0 <= i < |c.chapters| ==> r.chapters[i].(fluidDefense := c.chapters[i].fluidDefense) == c.chapters[i]
  }

  /** Inside chapter `uc`, every unit keeps its place and id, and only unit `uid`'s attachments differ. */
  ghost predicate OnlyAttachmentsOfUnit(oc: Chapter, rc: Chapter, uid: int)
  {
    && |rc.units| == |oc.units|
    && forall j :: 0 <= j < |oc.units| ==>
         && rc.units[j].(attachments := oc.units[j].attachments) == oc.units[j]
         && (oc.units[j].id != uid ==> rc.units[j] == oc.units[j])
  }

  /** As `OnlyUnitsChange`, and inside chapter `cid` only unit `uid`'s attachments differ. */
  ghost predicate OnlyAttachmentsChange(c: CourseManifest, r: CourseManifest, cid: int, uid: int)
  {
    && OnlyUnitsChange(c, r, cid)
    && forall i :: 0 <= i < |c.chapters| ==> OnlyAttachmentsOfUnit(c.chapters[i], r.chapters[i], uid)
  }

  // ---------------------------------------------------------------------------
  // The path-rebuilding steps

  /** `chapters: updateNestedItem(course.chapters, cid, f)` */
  function EditChapter(c: CourseManifest, cid: int, f: Chapter -> Chapter): CourseManifest
  {
    c.(chapters := UpdateItem(c.chapters, cid, ChapterId, f))
  }

  /** `units: updateNestedItem(chapter.units, uid, f)` */
  function EditUnit(ch: Chapter, uid: int, f: Unit -> Unit): Chapter
  {
    ch.(units := UpdateItem(ch.units, uid, UnitId, f))
  }

  /** Replaces the units of chapter `cid` by `g` of them. */
  function EditChapterUnits(c: CourseManifest, cid: int, g: seq<Unit> -> seq<Unit>): (r: CourseManifest)
    ensures OnlyUnitsChange(c, r, cid)
    ensures forall i :: 0 <= i < |c.chapters| && c.chapters[i].id == cid ==>
              r.chapters[i].units == g(c.chapters[i].units)
  {
    EditChapter(c, cid, (ch: Chapter) => ch.(units := g(ch.units)))
  }

  /** Replaces the assessments of chapter `cid` by `g` of them. */
  function EditChapterFluidDefense(c: CourseManifest, cid: int, g: seq<FluidDefense> -> seq<FluidDefense>)
    : (r: CourseManifest)
    ensures OnlyFluidDefenseChanges(c, r, cid)
    ensures forall i :: 0 <= i < |c.chapters| && c.chapters[i].id == cid ==>
              r.chapters[i].fluidDefense == g(c.chapters[i].fluidDefense)
  {
    EditChapter(c, cid, (ch: Chapter) => ch.(fluidDefense := g(ch.fluidDefense)))
  }

  /** Replaces the attachments of unit `uid` in chapter `cid` by `g` of them. */
  function EditUnitAttachments(c: CourseManifest, cid: int, uid: int, g: seq<Attachment> -> seq<Attachment>)
    : (r: CourseManifest)
    ensures OnlyAttachmentsChange(c, r, cid, uid)
    ensures forall i, j :: 0 <= i < |c.chapters| && c.chapters[i].id == cid
                           && 0 <= j < |c.chapters[i].units| && c.chapters[i].units[j].id == uid ==>
              r.chapters[i].units[j].attachments == g(c.chapters[i].units[j].attachments)
  {
    var f := (un: Unit) => un.(attachments := g(un.attachments));
    var r := EditChapter(c, cid, (ch: Chapter) => EditUnit(ch, uid, f));
    assert forall i :: 0 <= i < |c.chapters| ==> OnlyAttachmentsOfUnit(c.chapters[i], r.chapters[i], uid);
    r
  }

  // ---------------------------------------------------------------------------
  // Chapters

  function NewChapter(fields: ChapterFields, newId: int): Chapter
  {
    Chapter(newId, fields.title, fields.sequenceOrder, fields.learningObjective, fields.endCodeState, [], [])
  }

  /** `addChapter`: appended last, with the given id and no units or assessments. */
  function AddChapter(c: CourseManifest, fields: ChapterFields, newId: int): (r: CourseManifest)
    ensures r.(chapters := c.chapters) == c
    ensures |r.chapters| == |c.chapters| + 1 && r.chapters[..|c.chapters|] == c.chapters
    ensures var ch := r.chapters[|c.chapters|];
            && ch.id == newId && ch.units == [] && ch.fluidDefense == []
            && ch.title == fields.title && ch.sequenceOrder == fields.sequenceOrder
            && ch.learningObjective == fields.learningObjective && ch.endCodeState == fields.endCodeState
  {
    c.(chapters := c.chapters + [NewChapter(fields, newId)])
  }

  /** `updateChapter`: the spread applies to every chapter with id `cid`, and only there. */
  function UpdateChapter(c: CourseManifest, cid: int, u: ChapterUpdate): (r: CourseManifest)
    ensures SameOutsideChapter(c, r, cid)
    ensures forall i :: 0 <= i < |c.chapters| && c.chapters[i].id == cid ==>
              r.chapters[i] == ApplyChapterUpdate(c.chapters[i], u)
  {
    EditChapter(c, cid, (ch: Chapter) => ApplyChapterUpdate(ch, u))
  }

  /** `deleteChapter`: the chapter goes, and with it its units, their attachments and its assessments. */
  function DeleteChapter(c: CourseManifest, cid: int): (r: CourseManifest)
    ensures r.(chapters := c.chapters) == c
    ensures forall ch :: ch in r.chapters <==> ch in c.chapters && ch.id != cid
  {
    DeleteItemMembers(c.chapters, cid, ChapterId);
    c.(chapters := DeleteItem(c.chapters, cid, ChapterId))
  }

  // ---------------------------------------------------------------------------
  // Units

  function NewUnit(fields: UnitFields, newId: int): Unit
  {
    Unit(newId, fields.title, fields.directive, fields.realizationPoints, [], fields.endCodeState)
  }

  /** `addUnit`: appended to the units of chapter `cid`, with no attachments. */
  function AddUnit(c: CourseManifest, cid: int, fields: UnitFields, newId: int): (r: CourseManifest)
    ensures OnlyUnitsChange(c, r, cid)
    ensures forall i :: 0 <= i < |c.chapters| && c.chapters[i].id == cid ==>
              r.chapters[i].units == c.chapters[i].units
                + [Unit(newId, fields.title, fields.directive, fields.realizationPoints, [], fields.endCodeState)]
  {
    EditChapterUnits(c, cid, (us: seq<Unit>) => us + [NewUnit(fields, newId)])
  }

  /** `updateUnit`: the spread applies to unit `uid` inside chapter `cid`, and only there. */
  function UpdateUnit(c: CourseManifest, cid: int, uid: int, u: UnitUpdate): (r: CourseManifest)
    ensures OnlyUnitsChange(c, r, cid)
    ensures forall i :: 0 <= i < |c.chapters| && c.chapters[i].id == cid ==>
              r.chapters[i].units == UpdateItem(c.chapters[i].units, uid, UnitId, (un: Unit) => ApplyUnitUpdate(un, u))
  {
    EditChapterUnits(c, cid, (us: seq<Unit>) => UpdateItem(us, uid, UnitId, (un: Unit) => ApplyUnitUpdate(un, u)))
  }

  /** `deleteUnit`: unit `uid` leaves chapter `cid`, taking its attachments with it. */
  function DeleteUnit(c: CourseManifest, cid: int, uid: int): (r: CourseManifest)
    ensures OnlyUnitsChange(c, r, cid)
    ensures forall i :: 0 <= i < |c.chapters| && c.chapters[i].id == cid ==>
              r.chapters[i].units == DeleteItem(c.chapters[i].units, uid, UnitId)
  {
    EditChapterUnits(c, cid, (us: seq<Unit>) => DeleteItem(us, uid, UnitId))
  }

  // ---------------------------------------------------------------------------
  // Attachments

  /** `addAttachment`: appended to unit `uid` of chapter `cid` under the given id. */
  function AddAttachment(c: CourseManifest, cid: int, uid: int, a: Attachment, newId: int): (r: CourseManifest)
    ensures OnlyAttachmentsChange(c, r, cid, uid)
    ensures forall i, j :: 0 <= i < |c.chapters| && c.chapters[i].id == cid
                           && 0 <= j < |c.chapters[i].units| && c.chapters[i].units[j].id == uid ==>
              r.chapters[i].units[j].attachments == c.chapters[i].units[j].attachments + [a.(id := newId)]
  {
    EditUnitAttachments(c, cid, uid, (atts: seq<Attachment>) => atts + [a.(id := newId)])
  }

  /** `updateAttachment`: the same-variant spread applies to attachment `aid` of unit `uid` in chapter `cid`. */
  function UpdateAttachment(c: CourseManifest, cid: int, uid: int, aid: int, u: AttachmentUpdate): (r: CourseManifest)
    ensures OnlyAttachmentsChange(c, r, cid, uid)
    ensures forall i, j :: 0 <= i < |c.chapters| && c.chapters[i].id == cid
                           && 0 <= j < |c.chapters[i].units| && c.chapters[i].units[j].id == uid ==>
              r.chapters[i].units[j].attachments
                == UpdateItem(c.chapters[i].units[j].attachments, aid, AttachmentId, (a: Attachment) => ApplyAttachmentUpdate(a, u))
  {
    EditUnitAttachments(c, cid, uid, (atts: seq<Attachment>) =>
      UpdateItem(atts, aid, AttachmentId, (a: Attachment) => ApplyAttachmentUpdate(a, u)))
  }

  /** `deleteAttachment`: attachment `aid` leaves unit `uid` of chapter `cid`. */
  function DeleteAttachment(c: CourseManifest, cid: int, uid: int, aid: int): (r: CourseManifest)
    ensures OnlyAttachmentsChange(c, r, cid, uid)
    ensures forall i, j :: 0 <= i < |c.chapters| && c.chapters[i].id == cid
                           && 0 <= j < |c.chapters[i].units| && c.chapters[i].units[j].id == uid ==>
              r.chapters[i].units[j].attachments == DeleteItem(c.chapters[i].units[j].attachments, aid, AttachmentId)
  {
    EditUnitAttachments(c, cid, uid, (atts: seq<Attachment>) => DeleteItem(atts, aid, AttachmentId))
  }

  // ---------------------------------------------------------------------------
  // Assessment items

  /** `addFluidDefense`: appended to the assessments of chapter `cid` under the given id. */
  function AddFluidDefense(c: CourseManifest, cid: int, d: FluidDefense, newId: int): (r: CourseManifest)
    ensures OnlyFluidDefenseChanges(c, r, cid)
    ensures forall i :: 0 <= i < |c.chapters| && c.chapters[i].id == cid ==>
              r.chapters[i].fluidDefense == c.chapters[i].fluidDefense + [d.(id := newId)]
  {
    EditChapterFluidDefense(c, cid, (ds: seq<FluidDefense>) => ds + [d.(id := newId)])
  }

  /** `updateFluidDefense`: the same-variant spread applies to item `did` of chapter `cid`. */
  function UpdateFluidDefense(c: CourseManifest, cid: int, did: int, u: FluidDefenseUpdate): (r: CourseManifest)
    ensures OnlyFluidDefenseChanges(c, r, cid)
    ensures forall i :: 0 <= i < |c.chapters| && c.chapters[i].id == cid ==>
              r.chapters[i].fluidDefense
                == UpdateItem(c.chapters[i].fluidDefense, did, FluidDefenseId, (d: FluidDefense) => ApplyFluidDefenseUpdate(d, u))
  {
    EditChapterFluidDefense(c, cid, (ds: seq<FluidDefense>) =>
      UpdateItem(ds, did, FluidDefenseId, (d: FluidDefense) => ApplyFluidDefenseUpdate(d, u)))
  }

  /** `deleteFluidDefense`: item `did` leaves chapter `cid`. */
  function DeleteFluidDefense(c: CourseManifest, cid: int, did: int): (r: CourseManifest)
    ensures OnlyFluidDefenseChanges(c, r, cid)
    ensures forall i :: 0 <= i < |c.chapters| && c.chapters[i].id == cid ==>
              r.chapters[i].fluidDefense == DeleteItem(c.chapters[i].fluidDefense, did, FluidDefenseId)
  {
    EditChapterFluidDefense(c, cid, (ds: seq<FluidDefense>) => DeleteItem(ds, did, FluidDefenseId))
  }

  // ---------------------------------------------------------------------------
  // Metadata and selection

  /** `updateCourseMetadata`: present top-level fields overwrite; `id` and `chapters` never change. */
  function UpdateCourseMetadata(c: CourseManifest, u: MetadataUpdate): (r: CourseManifest)
    ensures r.id == c.id && r.chapters == c.chapters
    ensures r.title == (if u.title.Some? then u.title.value else c.title)
    ensures r.description == (if u.description.Some? then u.description.value else c.description)
    ensures r.repository == (if u.repository.Some? then u.repository.value else c.repository)
    ensures r.initialCodeState == (if u.initialCodeState.Some? then u.initialCodeState.value else c.initialCodeState)
    ensures r.speakers == (if u.speakers.Some? then u.speakers.value else c.speakers)
    ensures r.northStar == (if u.northStar.Some? then u.northStar.value else c.northStar)
  {
    c.(title := u.title.GetOr(c.title),
       description := u.description.GetOr(c.description),
       repository := u.repository.GetOr(c.repository),
       initialCodeState := u.initialCodeState.GetOr(c.initialCodeState),
       speakers := u.speakers.GetOr(c.speakers),
       northStar := u.northStar.GetOr(c.northStar))
  }

  /** `selected === id ? null : selected` */
  function ClearIfSelected(selected: Option<int>, id: int): (r: Option<int>)
    ensures r.None? <==> selected.None? || selected == Some(id)
    ensures r.Some? ==> r == selected
  {
    if selected == Some(id) then None else selected
  }

  // ---------------------------------------------------------------------------
  // Laws of the actions

  /** Attachments summed over a chapter's units. */
  function UnitAttachmentCount(u: Unit): nat { |u.attachments| }
  function ChapterAttachmentCount(ch: Chapter): nat { SumOf(ch.units, UnitAttachmentCount) }
  function CountAttachments(c: CourseManifest): nat { SumOf(c.chapters, ChapterAttachmentCount) }

  /** A new chapter brings no units, assessments or attachments, whatever its id. */
  lemma AddChapterKeepsCounts(c: CourseManifest, fields: ChapterFields, newId: int)
    ensures var r := AddChapter(c, fields, newId);
            && CountUnits(r) == CountUnits(c)
            && CountAssessments(r) == CountAssessments(c)
            && CountAttachments(r) == CountAttachments(c)
  {
    var x := NewChapter(fields, newId);
    assert AddChapter(c, fields, newId).chapters == c.chapters + [x];
    SumOfAppend(c.chapters, [x], UnitCount);
    SumOfAppend(c.chapters, [x], AssessmentCount);
    SumOfAppend(c.chapters, [x], ChapterAttachmentCount);
  }

  /** A chapter added under a fresh id is what looking up that id finds. */
  lemma FindAddedChapter(c: CourseManifest, fields: ChapterFields, newId: int)
    requires forall ch :: ch in c.chapters ==> ch.id != newId
    ensures FindChapterById(AddChapter(c, fields, newId), newId) == Some(NewChapter(fields, newId))
  {
    var x := NewChapter(fields, newId);
    assert AddChapter(c, fields, newId).chapters == c.chapters + [x];
    FindAfterAbsent(c.chapters, x, ChapterId);
  }

  /** Looking up the id of an element appended after elements without it finds that element. */
  lemma {:induction false} FindAfterAbsent<T>(items: seq<T>, x: T, key: T -> int)
    requires forall i :: 0 <= i < |items| ==> key(items[i]) != key(x)
    ensures FindById(items + [x], key(x), key) == Some(x)
  {
    if items != [] {
      assert (items + [x])[1..] == items[1..] + [x];
      FindAfterAbsent(items[1..], x, key);
    }
  }

  /** `deleteChapter` undoes `addChapter` when the new id is fresh. */
  lemma DeleteChapterUndoesAdd(c: CourseManifest, fields: ChapterFields, newId: int)
    requires forall ch :: ch in c.chapters ==> ch.id != newId
    ensures DeleteChapter(AddChapter(c, fields, newId), newId) == c
  {
    DeleteAfterAppend(c.chapters, NewChapter(fields, newId), ChapterId);
  }

  /**
   * Cascade: deleting the one chapter with id `cid` lowers the unit count by its units,
   * the assessment count by its assessments and the attachment count by its units' attachments.
   */
  lemma DeleteChapterCascade(c: CourseManifest, k: nat)
    requires k < |c.chapters|
    requires forall i :: 0 <= i < |c.chapters| && i != k ==> c.chapters[i].id != c.chapters[k].id
    ensures var ch := c.chapters[k];
            var r := DeleteChapter(c, ch.id);
            && |r.chapters| == |c.chapters| - 1
            && FindChapterById(r, ch.id).None?
            && CountUnits(r) == CountUnits(c) - |ch.units|
            && CountAssessments(r) == CountAssessments(c) - |ch.fluidDefense|
            && CountAttachments(r) == CountAttachments(c) - ChapterAttachmentCount(ch)
  {
    var cs := c.chapters;
    var ch := cs[k];
    MatchingSingle(cs, ch.id, ChapterId, k);
    assert CountMatching(cs, ch.id, ChapterId) == 1 by {
      CountMatchingIsMatchingLength(cs, ch.id, ChapterId);
    }
    var rest := DeleteItem(cs, ch.id, ChapterId);
    DeleteItemSum(cs, ch.id, ChapterId, UnitCount);
    DeleteItemSum(cs, ch.id, ChapterId, AssessmentCount);
    DeleteItemSum(cs, ch.id, ChapterId, ChapterAttachmentCount);
    assert SumOf([ch], UnitCount) == |ch.units|;
    assert SumOf([ch], AssessmentCount) == |ch.fluidDefense|;
    assert SumOf([ch], ChapterAttachmentCount) == ChapterAttachmentCount(ch);
  }

  lemma {:induction false} CountMatchingIsMatchingLength<T>(items: seq<T>, id: int, key: T -> int)
    ensures CountMatching(items, id, key) == |Matching(items, id, key)|
  {
    if items != [] {
      CountMatchingIsMatchingLength(items[1..], id, key);
    }
  }

  /** When every addressed chapter keeps its units, a units-only change changed nothing. */
  lemma {:induction false} UnitsUnchangedMeansSame(c: CourseManifest, r: CourseManifest, cid: int)
    requires OnlyUnitsChange(c, r, cid)
    requires forall i :: 0 <= i < |c.chapters| && c.chapters[i].id == cid ==> r.chapters[i].units == c.chapters[i].units
    ensures r == c
  {
    assert r.chapters == c.chapters by {
      forall i | 0 <= i < |c.chapters| ensures r.chapters[i] == c.chapters[i] {
        if c.chapters[i].id == cid {
          assert r.chapters[i] == r.chapters[i].(units := c.chapters[i].units);
        }
      }
    }
    assert r == r.(chapters := c.chapters);
  }

  /** When every addressed chapter keeps its assessments, an assessments-only change changed nothing. */
  lemma {:induction false} FluidDefenseUnchangedMeansSame(c: CourseManifest, r: CourseManifest, cid: int)
    requires OnlyFluidDefenseChanges(c, r, cid)
    requires forall i :: 0 <= i < |c.chapters| && c.chapters[i].id == cid ==>
               r.chapters[i].fluidDefense == c.chapters[i].fluidDefense
    ensures r == c
  {
    assert r.chapters == c.chapters by {
      forall i | 0 <= i < |c.chapters| ensures r.chapters[i] == c.chapters[i] {
        if c.chapters[i].id == cid {
          assert r.chapters[i] == r.chapters[i].(fluidDefense := c.chapters[i].fluidDefense);
        }
      }
    }
    assert r == r.(chapters := c.chapters);
  }

  /** When every addressed unit keeps its attachments, an attachments-only change changed nothing. */
  lemma {:induction false} AttachmentsUnchangedMeansSame(c: CourseManifest, r: CourseManifest, cid: int, uid: int)
    requires OnlyAttachmentsChange(c, r, cid, uid)
    requires forall i, j :: 0 <= i < |c.chapters| && c.chapters[i].id == cid
                            && 0 <= j < |c.chapters[i].units| && c.chapters[i].units[j].id == uid ==>
               r.chapters[i].units[j].attachments == c.chapters[i].units[j].attachments
    ensures r == c
  {
    forall i | 0 <= i < |c.chapters| && c.chapters[i].id == cid
      ensures r.chapters[i].units == c.chapters[i].units
    {
      var oc, rc := c.chapters[i], r.chapters[i];
      assert OnlyAttachmentsOfUnit(oc, rc, uid);
      forall j | 0 <= j < |oc.units| ensures rc.units[j] == oc.units[j] {
        if oc.units[j].id == uid {
          assert rc.units[j] == rc.units[j].(attachments := oc.units[j].attachments);
        }
      }
    }
    UnitsUnchangedMeansSame(c, r, cid);
  }

  /** `addUnit` under a missing chapter id leaves the course as it was. */
  lemma AddUnitMissingChapter(c: CourseManifest, cid: int, fields: UnitFields, newId: int)
    requires forall ch :: ch in c.chapters ==> ch.id != cid
    ensures AddUnit(c, cid, fields, newId) == c
  {
    UnitsUnchangedMeansSame(c, AddUnit(c, cid, fields, newId), cid);
  }

  /** `deleteUnit` of a unit that chapter `cid` does not hold leaves the course as it was. */
  lemma DeleteUnitMissingUnit(c: CourseManifest, cid: int, uid: int)
    requires forall ch :: ch in c.chapters && ch.id == cid ==> forall un :: un in ch.units ==> un.id != uid
    ensures DeleteUnit(c, cid, uid) == c
  {
    var r := DeleteUnit(c, cid, uid);
    forall i | 0 <= i < |c.chapters| && c.chapters[i].id == cid
      ensures r.chapters[i].units == c.chapters[i].units
    {
      var us := c.chapters[i].units;
      assert c.chapters[i] in c.chapters;
      assert forall j :: 0 <= j < |us| ==> us[j] in us;
      DeleteItemAbsent(us, uid, UnitId);
    }
    UnitsUnchangedMeansSame(c, r, cid);
  }

  /** `deleteUnit` undoes `addUnit` when the new id is fresh in the addressed chapter. */
  lemma DeleteUnitUndoesAdd(c: CourseManifest, cid: int, fields: UnitFields, newId: int)
    requires forall ch :: ch in c.chapters && ch.id == cid ==> forall un :: un in ch.units ==> un.id != newId
    ensures DeleteUnit(AddUnit(c, cid, fields, newId), cid, newId) == c
  {
    var m := AddUnit(c, cid, fields, newId);
    var r := DeleteUnit(m, cid, newId);
    forall i | 0 <= i < |c.chapters| && c.chapters[i].id == cid
      ensures r.chapters[i].units == c.chapters[i].units
    {
      var us := c.chapters[i].units;
      assert c.chapters[i] in c.chapters;
      assert forall j :: 0 <= j < |us| ==> us[j] in us;
      DeleteAfterAppend(us, NewUnit(fields, newId), UnitId);
    }
    UnitsUnchangedMeansSame(c, r, cid);
  }

  /** `deleteAttachment` undoes `addAttachment` when the new id is fresh in the addressed unit. */
  lemma DeleteAttachmentUndoesAdd(c: CourseManifest, cid: int, uid: int, a: Attachment, newId: int)
    requires forall ch :: ch in c.chapters && ch.id == cid ==>
               forall un :: un in ch.units && un.id == uid ==> forall x :: x in un.attachments ==> x.id != newId
    ensures DeleteAttachment(AddAttachment(c, cid, uid, a, newId), cid, uid, newId) == c
  {
    var m := AddAttachment(c, cid, uid, a, newId);
    var r := DeleteAttachment(m, cid, uid, newId);
    assert OnlyAttachmentsChange(c, r, cid, uid) by {
      OnlyAttachmentsChangeTrans(c, m, r, cid, uid);
    }
    forall i, j | 0 <= i < |c.chapters| && c.chapters[i].id == cid
                  && 0 <= j < |c.chapters[i].units| && c.chapters[i].units[j].id == uid
      ensures r.chapters[i].units[j].attachments == c.chapters[i].units[j].attachments
    {
      var atts := c.chapters[i].units[j].attachments;
      assert c.chapters[i] in c.chapters && c.chapters[i].units[j] in c.chapters[i].units;
      assert forall k :: 0 <= k < |atts| ==> atts[k] in atts;
      DeleteAfterAppend(atts, a.(id := newId), AttachmentId);
    }
    AttachmentsUnchangedMeansSame(c, r, cid, uid);
  }

  lemma OnlyAttachmentsChangeTrans(c: CourseManifest, m: CourseManifest, r: CourseManifest, cid: int, uid: int)
    requires OnlyAttachmentsChange(c, m, cid, uid) && OnlyAttachmentsChange(m, r, cid, uid)
    ensures OnlyAttachmentsChange(c, r, cid, uid)
  {
    forall i | 0 <= i < |c.chapters| ensures OnlyAttachmentsOfUnit(c.chapters[i], r.chapters[i], uid) {
      assert OnlyAttachmentsOfUnit(c.chapters[i], m.chapters[i], uid);
      assert OnlyAttachmentsOfUnit(m.chapters[i], r.chapters[i], uid);
    }
  }

  /** `deleteFluidDefense` undoes `addFluidDefense` when the new id is fresh in the addressed chapter. */
  lemma DeleteFluidDefenseUndoesAdd(c: CourseManifest, cid: int, d: FluidDefense, newId: int)
    requires forall ch :: ch in c.chapters && ch.id == cid ==> forall x :: x in ch.fluidDefense ==> x.id != newId
    ensures DeleteFluidDefense(AddFluidDefense(c, cid, d, newId), cid, newId) == c
  {
    var m := AddFluidDefense(c, cid, d, newId);
    var r := DeleteFluidDefense(m, cid, newId);
    forall i | 0 <= i < |c.chapters| && c.chapters[i].id == cid
      ensures r.chapters[i].fluidDefense == c.chapters[i].fluidDefense
    {
      var ds := c.chapters[i].fluidDefense;
      assert c.chapters[i] in c.chapters;
      assert forall j :: 0 <= j < |ds| ==> ds[j] in ds;
      DeleteAfterAppend(ds, d.(id := newId), FluidDefenseId);
    }
    FluidDefenseUnchangedMeansSame(c, r, cid);
  }

  /** Applying the same chapter update twice is applying it once. */
  lemma UpdateChapterIdempotent(c: CourseManifest, cid: int, u: ChapterUpdate)
    ensures UpdateChapter(UpdateChapter(c, cid, u), cid, u) == UpdateChapter(c, cid, u)
  {
    var m := UpdateChapter(c, cid, u);
    var r := UpdateChapter(m, cid, u);
    assert r.chapters == m.chapters;
  }

  /** An update with no fields present changes nothing. */
  lemma UpdateChapterEmpty(c: CourseManifest, cid: int)
    ensures UpdateChapter(c, cid, ChapterUpdate(None, None, None, None)) == c
  {
    var r := UpdateChapter(c, cid, ChapterUpdate(None, None, None, None));
    assert r.chapters == c.chapters;
  }
}
