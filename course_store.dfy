/**
 * The course store (src/store/courseStore.ts): one object holding the current course
 * and the two selection fields. Every action replaces `course` wholesale with the value
 * the matching `CourseEdits` function computes; the id an add action would draw from
 * the clock-and-random generator is passed in as `newId`.
 */
module CourseStore {
  import opened Wrappers
  import opened CourseTypes
  import CourseEdits

  class Store {
    var course: CourseManifest
    var selectedChapterId: Option<int>
    var selectedUnitId: Option<int>

    /** The store starts from the seed course with nothing selected. */
    constructor (initial: CourseManifest)
      ensures course == initial && selectedChapterId == None && selectedUnitId == None
    {
      course := initial;
      selectedChapterId := None;
      selectedUnitId := None;
    }

    // Chapter actions

    method AddChapter(fields: CourseEdits.ChapterFields, newId: int)
      modifies this
      ensures course == CourseEdits.AddChapter(old(course), fields, newId)
      ensures selectedChapterId == old(selectedChapterId) && selectedUnitId == old(selectedUnitId)
    {
      course := CourseEdits.AddChapter(course, fields, newId);
    }

    method UpdateChapter(chapterId: int, updates: CourseEdits.ChapterUpdate)
      modifies this
      ensures course == CourseEdits.UpdateChapter(old(course), chapterId, updates)
      ensures selectedChapterId == old(selectedChapterId) && selectedUnitId == old(selectedUnitId)
    {
      course := CourseEdits.UpdateChapter(course, chapterId, updates);
    }

    /** Deleting the selected chapter clears that selection; the unit selection is left alone. */
    method DeleteChapter(chapterId: int)
      modifies this
      ensures course == CourseEdits.DeleteChapter(old(course), chapterId)
      ensures selectedChapterId == CourseEdits.ClearIfSelected(old(selectedChapterId), chapterId)
      ensures selectedUnitId == old(selectedUnitId)
    {
      course := CourseEdits.DeleteChapter(course, chapterId);
      selectedChapterId := CourseEdits.ClearIfSelected(selectedChapterId, chapterId);
    }

    // Unit actions

    method AddUnit(chapterId: int, fields: CourseEdits.UnitFields, newId: int)
      modifies this
      ensures course == CourseEdits.AddUnit(old(course), chapterId, fields, newId)
      ensures selectedChapterId == old(selectedChapterId) && selectedUnitId == old(selectedUnitId)
    {
      course := CourseEdits.AddUnit(course, chapterId, fields, newId);
    }

    method UpdateUnit(chapterId: int, unitId: int, updates: CourseEdits.UnitUpdate)
      modifies this
      ensures course == CourseEdits.UpdateUnit(old(course), chapterId, unitId, updates)
      ensures selectedChapterId == old(selectedChapterId) && selectedUnitId == old(selectedUnitId)
    {
      course := CourseEdits.UpdateUnit(course, chapterId, unitId, updates);
    }

    /** The unit selection is cleared whenever it names `unitId`, whether or not chapter
        `chapterId` held that unit. */
    method DeleteUnit(chapterId: int, unitId: int)
      modifies this
      ensures course == CourseEdits.DeleteUnit(old(course), chapterId, unitId)
      ensures selectedUnitId == CourseEdits.ClearIfSelected(old(selectedUnitId), unitId)
      ensures selectedChapterId == old(selectedChapterId)
    {
      course := CourseEdits.DeleteUnit(course, chapterId, unitId);
      selectedUnitId := CourseEdits.ClearIfSelected(selectedUnitId, unitId);
    }

    // Attachment actions

    method AddAttachment(chapterId: int, unitId: int, attachment: Attachment, newId: int)
      modifies this
      ensures course == CourseEdits.AddAttachment(old(course), chapterId, unitId, attachment, newId)
      ensures selectedChapterId == old(selectedChapterId) && selectedUnitId == old(selectedUnitId)
    {
      course := CourseEdits.AddAttachment(course, chapterId, unitId, attachment, newId);
    }

    method UpdateAttachment(chapterId: int, unitId: int, attachmentId: int, updates: CourseEdits.AttachmentUpdate)
      modifies this
      ensures course == CourseEdits.UpdateAttachment(old(course), chapterId, unitId, attachmentId, updates)
      ensures selectedChapterId == old(selectedChapterId) && selectedUnitId == old(selectedUnitId)
    {
      course := CourseEdits.UpdateAttachment(course, chapterId, unitId, attachmentId, updates);
    }

    method DeleteAttachment(chapterId: int, unitId: int, attachmentId: int)
      modifies this
      ensures course == CourseEdits.DeleteAttachment(old(course), chapterId, unitId, attachmentId)
      ensures selectedChapterId == old(selectedChapterId) && selectedUnitId == old(selectedUnitId)
    {
      course := CourseEdits.DeleteAttachment(course, chapterId, unitId, attachmentId);
    }

    // Assessment actions

    method AddFluidDefense(chapterId: int, defense: FluidDefense, newId: int)
      modifies this
      ensures course == CourseEdits.AddFluidDefense(old(course), chapterId, defense, newId)
      ensures selectedChapterId == old(selectedChapterId) && selectedUnitId == old(selectedUnitId)
    {
      course := CourseEdits.AddFluidDefense(course, chapterId, defense, newId);
    }

    method UpdateFluidDefense(chapterId: int, defenseId: int, updates: CourseEdits.FluidDefenseUpdate)
      modifies this
      ensures course == CourseEdits.UpdateFluidDefense(old(course), chapterId, defenseId, updates)
      ensures selectedChapterId == old(selectedChapterId) && selectedUnitId == old(selectedUnitId)
    {
      course := CourseEdits.UpdateFluidDefense(course, chapterId, defenseId, updates);
    }

    method DeleteFluidDefense(chapterId: int, defenseId: int)
      modifies this
      ensures course == CourseEdits.DeleteFluidDefense(old(course), chapterId, defenseId)
      ensures selectedChapterId == old(selectedChapterId) && selectedUnitId == old(selectedUnitId)
    {
      course := CourseEdits.DeleteFluidDefense(course, chapterId, defenseId);
    }

    // Selection actions: each sets its own field and nothing else.

    method SetSelectedChapter(chapterId: Option<int>)
      modifies this
      ensures selectedChapterId == chapterId
      ensures course == old(course) && selectedUnitId == old(selectedUnitId)
    {
      selectedChapterId := chapterId;
    }

    method SetSelectedUnit(unitId: Option<int>)
      modifies this
      ensures selectedUnitId == unitId
      ensures course == old(course) && selectedChapterId == old(selectedChapterId)
    {
      selectedUnitId := unitId;
    }

    // Course metadata

    method UpdateCourseMetadata(updates: CourseEdits.MetadataUpdate)
      modifies this
      ensures course == CourseEdits.UpdateCourseMetadata(old(course), updates)
      ensures selectedChapterId == old(selectedChapterId) && selectedUnitId == old(selectedUnitId)
    {
      course := CourseEdits.UpdateCourseMetadata(course, updates);
    }
  }

  /**
   * A client of the store: add a chapter, then rename the chapter at position `k` with a
   * title-only update. What the client learns follows from the method contracts alone.
   */
  method AddThenRename(s: Store, fields: CourseEdits.ChapterFields, newId: int, k: nat, title: string)
    requires k < |s.course.chapters|
    modifies s
    ensures |s.course.chapters| == |old(s.course.chapters)| + 1
    ensures s.course.chapters[|old(s.course.chapters)|].id == newId
    ensures s.course.chapters[|old(s.course.chapters)|].units == []
    ensures s.course.chapters[|old(s.course.chapters)|].fluidDefense == []
    ensures s.course.chapters[k].title == title
    ensures s.course.chapters[k].sequenceOrder == old(s.course.chapters[k].sequenceOrder)
    ensures s.course.chapters[k].units == old(s.course.chapters[k].units)
    ensures s.course.chapters[k].fluidDefense == old(s.course.chapters[k].fluidDefense)
  {
    var target := s.course.chapters[k].id;
    s.AddChapter(fields, newId);
    assert s.course.chapters[k].id == target;
    s.UpdateChapter(target, CourseEdits.ChapterUpdate(Some(title), None, None, None));
  }
}
