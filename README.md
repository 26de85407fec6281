# Course manifest engine — a Dafny model

This project models the document core of a course-authoring tool. A course manifest is a
tree: Course → Chapter → (Unit → Attachment, FluidDefense). The model covers four parts:

- **CourseTypes** (`course_types.dfy`): the records and the two tagged unions. `Attachment`
  is `CODE_REF | DOC_REF`; `FluidDefense` is `MCQ | CODING_CHALLENGE | OPEN_QUESTION`. It also
  holds the five type guards, which compare the `type` tag. Only a CODE_REF carries
  `filePath` and an optional `commitHash`, and only an MCQ carries `options`,
  `correctOptionIndex` and an optional `followUpQuestion`; the datatypes enforce this. A `Chapter` holds
  `units` and `fluidDefense`, and a `Unit` holds only `attachments`.
- **CourseHelpers** (`course_helpers.dfy`): the id-addressed collection helpers. These are
  lookup (`find`), update (`map` with an updater on every element whose id matches) and
  delete (`filter`). The two counting folds (`reduce`) are here too. The TypeScript helpers
  are generic over `T extends { id: number }`, so the Dafny versions take the `id`
  projection as a function argument.
- **CourseEdits** (`course_edits.dfy`): the new `course` value each store action computes.
  Each action rebuilds only the path from the root to the addressed node, by composing
  update and delete. A stale or missing id matches nothing, so the action changes nothing.
- **CourseStore** (`course_store.dfy`): the store object. Its fields are `course`,
  `selectedChapterId` and `selectedUnitId`, and every action assigns them the values
  computed by `CourseEdits`. An add action receives the new id as a parameter instead of
  calling the clock-and-random id generator.
- **Validation** (`validation.dfy`): the form validators. Each one is a total function from a
  partial candidate record (every field an `Option`) to `{isValid, errors}`, where
  `errors` maps field names to messages. "Blank" means that `trim()` leaves nothing.
  `Trim` is modelled over the ECMAScript whitespace and line-terminator code points, and
  a lemma shows that blank means all-whitespace.

Behaviours of the code that the model keeps:

- `updateNestedItem` updates every element with the matching id, not just the first one.
- `deleteUnit` clears `selectedUnitId` whenever it equals the deleted unit's id, even if the
  addressed chapter does not exist or does not hold that unit.
- `deleteChapter` clears only `selectedChapterId`. A selected unit of the deleted chapter
  stays selected.
- An update whose `commitHash` is absent keeps the old hash. The attachment form leaves
  out an empty hash, so a hash cannot be cleared by editing.
- The declared type of `updateCourseMetadata` leaves out `speakers` and `northStar`. The
  spread still copies them, and the metadata form does send them, so `MetadataUpdate`
  includes them.

## Model

| member | source | states |
|---|---|---|
| `CourseTypes.ParseAttachmentType` | src/types/course.ts:36 | a `type` string reads as a tag exactly when it is that tag's name (`CODE_REF`, `DOC_REF`) |
| `CourseTypes.ParseFluidDefenseType` | src/types/course.ts:57 | a `type` string reads as a tag exactly when it is that tag's name (`MCQ`, `CODING_CHALLENGE`, `OPEN_QUESTION`) |
| `CourseTypes.IsCodeRefAttachment` | src/types/course.ts:121-125 | the `type === 'CODE_REF'` test holds exactly for a code-reference attachment |
| `CourseTypes.IsDocRefAttachment` | src/types/course.ts:127-131 | the `type === 'DOC_REF'` test holds exactly for a document-reference attachment |
| `CourseTypes.IsMCQFluidDefense` | src/types/course.ts:133-137 | the `type === 'MCQ'` test holds exactly for a multiple-choice item |
| `CourseTypes.IsCodingChallengeFluidDefense` | src/types/course.ts:139-143 | the `type === 'CODING_CHALLENGE'` test holds exactly for a coding challenge |
| `CourseTypes.IsOpenQuestionFluidDefense` | src/types/course.ts:145-149 | the `type === 'OPEN_QUESTION'` test holds exactly for an open question |
| `CourseTypes.AttachmentGuardsPartition` | src/types/course.ts:121-131 | exactly one of the two attachment guards holds |
| `CourseTypes.FluidDefenseGuardsPartition` | src/types/course.ts:133-149 | exactly one of the three assessment guards holds |
| `CourseHelpers.FindById` | src/utils/courseHelpers.ts:12-47 | returns nothing exactly when no element has the id; otherwise returns the first element with that id |
| `CourseHelpers.FindChapterById` | src/utils/courseHelpers.ts:12-17 | a found chapter is in the course and has the id; nothing is found exactly when no chapter has it |
| `CourseHelpers.FindUnitById` | src/utils/courseHelpers.ts:22-27 | a found unit is in the chapter and has the id; nothing is found exactly when no unit has it |
| `CourseHelpers.FindAttachmentById` | src/utils/courseHelpers.ts:32-37 | a found attachment is in the unit and has the id; nothing is found exactly when no attachment has it |
| `CourseHelpers.FindFluidDefenseById` | src/utils/courseHelpers.ts:42-47 | a found item is in the chapter and has the id; nothing is found exactly when no item has it |
| `CourseHelpers.UpdateItem` | src/utils/courseHelpers.ts:52-58 | same length; each position whose id differs keeps its element, and each matching position holds `updater(element)` |
| `CourseHelpers.UpdateItemAbsent` | src/utils/courseHelpers.ts:57 | when no element has the id, the result equals the input |
| `CourseHelpers.UpdateItemKeepsKeys` | src/utils/courseHelpers.ts:52-58 | an updater that keeps ids keeps the id at every position |
| `CourseHelpers.CountMatching` | src/utils/courseHelpers.ts:67 | the number of elements with the id is zero exactly when none has it |
| `CourseHelpers.DeleteItem` | src/utils/courseHelpers.ts:63-68 | the length falls by exactly the number of elements with the id |
| `CourseHelpers.DeleteItemMembers` | src/utils/courseHelpers.ts:67 | no survivor has the id, every survivor was in the input, and every element without the id survives |
| `CourseHelpers.DeleteItemKeepsOrder` | src/utils/courseHelpers.ts:63-68 | the result is the input read at the strictly increasing positions of exactly the elements without the id |
| `CourseHelpers.DeleteItemAbsent` | src/utils/courseHelpers.ts:67 | deleting an id nobody has is a no-op |
| `CourseHelpers.DeleteItemIdempotent` | src/utils/courseHelpers.ts:67 | deleting twice equals deleting once |
| `CourseHelpers.DeleteItemAppend` | src/utils/courseHelpers.ts:67 | deleting from a concatenation deletes from each part |
| `CourseHelpers.DeleteAfterAppend` | src/utils/courseHelpers.ts:63-68 | appending an element with a fresh id and then deleting that id gives back the input |
| `CourseHelpers.ReduceSum` | src/utils/courseHelpers.ts:73-85 | the left fold with accumulator `acc` equals `acc` plus the reference sum |
| `CourseHelpers.SumOfAppend` | src/utils/courseHelpers.ts:73-85 | the sum over a concatenation is the sum of the parts |
| `CourseHelpers.DeleteItemSum` | src/utils/courseHelpers.ts:63-85 | a delete lowers any sum by exactly the removed elements' share |
| `CourseHelpers.MatchingSingle` | src/utils/courseHelpers.ts:67 | when exactly one position has the id, the delete removes exactly that element |
| `CourseHelpers.CountUnits` | src/utils/courseHelpers.ts:73-75 | equals the sum of `units` lengths over all chapters |
| `CourseHelpers.CountAssessments` | src/utils/courseHelpers.ts:80-85 | equals the sum of `fluidDefense` lengths over all chapters |
| `Validation.TrimStart` | src/utils/validation.ts:27 | no longer than the input; empty exactly for all-whitespace input, and otherwise starts with a non-whitespace character |
| `Validation.TrimEnd` | src/utils/validation.ts:27 | no longer than the input; empty or ends with a non-whitespace character; keeps a leading non-whitespace character |
| `Validation.TrimStartDropsWhitespace` | src/utils/validation.ts:27 | leading trimming keeps a suffix of the input and drops only whitespace before it |
| `Validation.TrimEndDropsWhitespace` | src/utils/validation.ts:27 | trailing trimming keeps a prefix of the input and drops only whitespace after it |
| `Validation.Trim` | src/utils/validation.ts:27 | `trim()` is empty exactly for all-whitespace strings, and a non-empty result starts and ends with a non-whitespace character |
| `Validation.TrimIsSlice` | src/utils/validation.ts:27 | `trim()` cuts the string into an all-whitespace prefix, the result and an all-whitespace suffix |
| `Validation.MissingText` | src/utils/validation.ts:27 | `!x \|\| x.trim() === ''` holds exactly when the property is absent or all whitespace |
| `Validation.MissingTag` | src/utils/validation.ts:80 | `!x` holds except for a present non-empty string; a missing tag is also missing text and names no attachment or assessment type |
| `Validation.Flag` | src/utils/validation.ts:27-29 | a failed rule adds its field with its message; every other key and message is kept; the map is non-empty exactly when a rule failed or it already was |
| `Validation.Finish` | src/utils/validation.ts:46-49 | the result carries the collected errors and is valid exactly when no error was collected |
| `Validation.HasOtherWithOrder` | src/utils/validation.ts:35-44 | true exactly when some chapter has the order and an id other than `currentChapterId` |
| `Validation.ValidateChapter` | src/utils/validation.ts:20-50 | keys are among title, learningObjective and sequenceOrder; each is reported exactly when its rule fails; sequenceOrder is reported only when a course is given; valid exactly when no key is reported; each key carries the source's message |
| `Validation.OwnSequenceOrderAccepted` | src/utils/validation.ts:35-44 | with unique orders, re-submitting a chapter's own order with its own id is accepted; without a current id it is rejected |
| `Validation.ValidateUnit` | src/utils/validation.ts:55-70 | title and directive are each reported, with the source's message, exactly when missing or blank; valid exactly when neither is reported |
| `Validation.ValidateAttachment` | src/utils/validation.ts:75-101 | reports `type` when missing, `note` when missing or blank, and `filePath` only for a `CODE_REF` with a missing or blank path, each with the source's message; valid exactly when no key is reported |
| `Validation.DocRefNeedsNoFilePath` | src/utils/validation.ts:88-95 | a `DOC_REF` never gets a `filePath` error, and it is valid exactly when its note is not blank |
| `Validation.ValidateMCQ` | src/utils/validation.ts:106-133 | reports `options` below two options; reports `correctOptionIndex` when the index is absent, negative, or at least the options length; each with the source's message; a valid MCQ has 0 ≤ index < length and length ≥ 2 |
| `Validation.ValidateCodingChallenge` | src/utils/validation.ts:138-175 | question, startState, solutionState and successCriteria are each reported, with the source's message, exactly when missing or blank |
| `Validation.ValidateOpenQuestion` | src/utils/validation.ts:180-202 | reports a missing or blank question and absent or empty criteria, each with the source's message, without checking the criteria's contents |
| `Validation.ValidateFluidDefense` | src/utils/validation.ts:207-230 | a missing or unknown type gives exactly the `type` key; otherwise the result is the matching variant validator's |
| `Validation.FluidDefenseTypeErrorIsAlone` | src/utils/validation.ts:210-229 | a missing or unknown type reports the key `type` and no other |
| `Validation.MCQIndexBoundary` | src/utils/validation.ts:115-127 | with options `['a','b']`, index 1 is valid, and index 2 is invalid with only `correctOptionIndex` reported |
| `CourseEdits.ApplyChapterUpdate` | src/store/courseStore.ts:122-125 | fields present in the update overwrite and absent ones are kept; id, units and fluidDefense are kept |
| `CourseEdits.ApplyUnitUpdate` | src/store/courseStore.ts:174-177 | fields present in the update overwrite and absent ones are kept; id and attachments are kept |
| `CourseEdits.ApplyAttachmentUpdate` | src/store/courseStore.ts:239-242 | keeps the id and the variant; note, filePath and commitHash overwrite when present |
| `CourseEdits.ApplyFluidDefenseUpdate` | src/store/courseStore.ts:305-308 | keeps the id and the variant; shared and same-variant fields overwrite when present |
| `CourseEdits.EditChapterUnits` | src/store/courseStore.ts:143-198 | only the units of chapters with the id change, and they become `g` of the old units |
| `CourseEdits.EditChapterFluidDefense` | src/store/courseStore.ts:272-331 | only the fluidDefense of chapters with the id changes, and it becomes `g` of the old list |
| `CourseEdits.EditUnitAttachments` | src/store/courseStore.ts:201-269 | only the attachments of unit `uid` in chapter `cid` change, and they become `g` of the old list |
| `CourseEdits.AddChapter` | src/store/courseStore.ts:99-113 | one more chapter; earlier chapters and all other course fields are unchanged; the last chapter has the given id and fields, with no units or assessments |
| `CourseEdits.UpdateChapter` | src/store/courseStore.ts:115-128 | every chapter with the id gets the update; all other chapters and all other course fields are unchanged |
| `CourseEdits.DeleteChapter` | src/store/courseStore.ts:130-135 | the survivors are exactly the chapters without the id; other course fields are unchanged |
| `CourseEdits.AddUnit` | src/store/courseStore.ts:143-163 | appends a unit with the given id and empty attachments to the addressed chapter; nothing else changes |
| `CourseEdits.UpdateUnit` | src/store/courseStore.ts:165-181 | only the units of chapter `cid` change, by the unit update at id `uid` |
| `CourseEdits.DeleteUnit` | src/store/courseStore.ts:183-195 | only the units of chapter `cid` change, losing unit `uid` |
| `CourseEdits.AddAttachment` | src/store/courseStore.ts:201-223 | appends to unit `uid` of chapter `cid` under the new id; other units, other chapters and the chapter's fluidDefense are untouched |
| `CourseEdits.UpdateAttachment` | src/store/courseStore.ts:225-248 | only the attachments of unit `uid` in chapter `cid` change, by the update at `aid` |
| `CourseEdits.DeleteAttachment` | src/store/courseStore.ts:250-269 | only the attachments of unit `uid` in chapter `cid` change, losing `aid` |
| `CourseEdits.AddFluidDefense` | src/store/courseStore.ts:272-291 | appends to the addressed chapter's fluidDefense under the new id; units and other chapters are untouched |
| `CourseEdits.UpdateFluidDefense` | src/store/courseStore.ts:293-313 | only the fluidDefense of chapter `cid` changes, by the update at `did` |
| `CourseEdits.DeleteFluidDefense` | src/store/courseStore.ts:315-331 | only the fluidDefense of chapter `cid` changes, losing `did` |
| `CourseEdits.UpdateCourseMetadata` | src/store/courseStore.ts:340-346 | top-level fields present in the update overwrite; absent ones, `id` and `chapters` are kept |
| `CourseEdits.ClearIfSelected` | src/store/courseStore.ts:136-139 | the selection becomes null exactly when it was null or named the deleted id, and is otherwise unchanged |
| `CourseEdits.AddChapterKeepsCounts` | src/store/courseStore.ts:99-113 | adding a chapter, under any id, changes no unit, assessment or attachment count |
| `CourseEdits.FindAddedChapter` | src/store/courseStore.ts:99-113 | looking up the fresh id of a chapter just added finds exactly that chapter |
| `CourseEdits.FindAfterAbsent` | src/utils/courseHelpers.ts:12-17 | looking up a fresh id appended last finds that element |
| `CourseEdits.DeleteChapterUndoesAdd` | src/store/courseStore.ts:99-135 | deleting a chapter just added under a fresh id restores the course |
| `CourseEdits.DeleteChapterCascade` | src/store/courseStore.ts:130-135 | deleting the one chapter with an id removes its units, assessments and attachments from the counts |
| `CourseEdits.CountMatchingIsMatchingLength` | src/utils/courseHelpers.ts:67 | the match count is the number of removed elements |
| `CourseEdits.UnitsUnchangedMeansSame` | src/store/courseStore.ts:143-198 | a units-only change that keeps every addressed chapter's units is the identity |
| `CourseEdits.FluidDefenseUnchangedMeansSame` | src/store/courseStore.ts:272-331 | an assessments-only change that keeps every addressed list is the identity |
| `CourseEdits.AttachmentsUnchangedMeansSame` | src/store/courseStore.ts:201-269 | an attachments-only change that keeps every addressed list is the identity |
| `CourseEdits.AddUnitMissingChapter` | src/store/courseStore.ts:143-163 | adding a unit under a missing chapter id leaves the course unchanged |
| `CourseEdits.DeleteUnitMissingUnit` | src/store/courseStore.ts:183-195 | deleting a unit the chapter does not hold leaves the course unchanged |
| `CourseEdits.DeleteUnitUndoesAdd` | src/store/courseStore.ts:143-195 | deleting a unit just added under a fresh id restores the course |
| `CourseEdits.DeleteAttachmentUndoesAdd` | src/store/courseStore.ts:201-269 | deleting an attachment just added under a fresh id restores the course |
| `CourseEdits.OnlyAttachmentsChangeTrans` | src/store/courseStore.ts:201-269 | two attachments-only changes at the same address compose to one |
| `CourseEdits.DeleteFluidDefenseUndoesAdd` | src/store/courseStore.ts:272-331 | deleting an item just added under a fresh id restores the course |
| `CourseEdits.UpdateChapterIdempotent` | src/store/courseStore.ts:115-128 | applying the same chapter update twice equals applying it once |
| `CourseEdits.UpdateChapterEmpty` | src/store/courseStore.ts:115-128 | an update with no fields present changes nothing |
| `CourseStore.Store.constructor` | src/store/courseStore.ts:93-96 | starts from the given course with both selections null |
| `CourseStore.Store.AddChapter` | src/store/courseStore.ts:99-113 | the course becomes `CourseEdits.AddChapter` of the old one; selections unchanged |
| `CourseStore.Store.UpdateChapter` | src/store/courseStore.ts:115-128 | the course becomes `CourseEdits.UpdateChapter` of the old one; selections unchanged |
| `CourseStore.Store.DeleteChapter` | src/store/courseStore.ts:130-140 | deletes the chapter; clears `selectedChapterId` exactly when it named the chapter; `selectedUnitId` unchanged |
| `CourseStore.Store.AddUnit` | src/store/courseStore.ts:143-163 | the course becomes `CourseEdits.AddUnit` of the old one; selections unchanged |
| `CourseStore.Store.UpdateUnit` | src/store/courseStore.ts:165-181 | the course becomes `CourseEdits.UpdateUnit` of the old one; selections unchanged |
| `CourseStore.Store.DeleteUnit` | src/store/courseStore.ts:183-198 | deletes the unit; clears `selectedUnitId` whenever it named `unitId`, whatever the chapter |
| `CourseStore.Store.AddAttachment` | src/store/courseStore.ts:201-223 | the course becomes `CourseEdits.AddAttachment` of the old one; selections unchanged |
| `CourseStore.Store.UpdateAttachment` | src/store/courseStore.ts:225-248 | the course becomes `CourseEdits.UpdateAttachment` of the old one; selections unchanged |
| `CourseStore.Store.DeleteAttachment` | src/store/courseStore.ts:250-269 | the course becomes `CourseEdits.DeleteAttachment` of the old one; selections unchanged |
| `CourseStore.Store.AddFluidDefense` | src/store/courseStore.ts:272-291 | the course becomes `CourseEdits.AddFluidDefense` of the old one; selections unchanged |
| `CourseStore.Store.UpdateFluidDefense` | src/store/courseStore.ts:293-313 | the course becomes `CourseEdits.UpdateFluidDefense` of the old one; selections unchanged |
| `CourseStore.Store.DeleteFluidDefense` | src/store/courseStore.ts:315-331 | the course becomes `CourseEdits.DeleteFluidDefense` of the old one; selections unchanged |
| `CourseStore.Store.SetSelectedChapter` | src/store/courseStore.ts:334-335 | sets only `selectedChapterId`; course and unit selection unchanged |
| `CourseStore.Store.SetSelectedUnit` | src/store/courseStore.ts:337 | sets only `selectedUnitId`; course and chapter selection unchanged |
| `CourseStore.Store.UpdateCourseMetadata` | src/store/courseStore.ts:340-346 | the course becomes `CourseEdits.UpdateCourseMetadata` of the old one; selections unchanged |
| `CourseStore.AddThenRename` | src/store/courseStore.ts:99-128 | a client sees that add appends an empty chapter under the new id, and that a title-only update renames while keeping order, units and assessments |

## Left out

- Undo/redo history: the store defines no `past`, `future`, `undo`, `redo` or `clearHistory`. The hook in src/store/useTemporalStore.ts reads them anyway, so there is no history behaviour to model.
- View selection through `selectedView`/`setSelectedView`: the store does not define it.
- Course-metadata validation: `validateCourseMetadata` is imported by the metadata form but not defined anywhere.
- Id generation (`Date.now()` plus a random offset): it reads the clock and a random source. Add actions take the new id as a parameter. Nothing is claimed about freshness, because the code does not guarantee it.
- CourseEdits.AddUnit: `addUnit` calls `generateId()` inside the per-chapter updater, so it draws one id for each chapter that carries the addressed id. When several chapters share that id, each new unit can get a different id. The model gives every copy the same `newId`. `CourseStore.Store.AddUnit` inherits this.
- CourseEdits.AddAttachment: `addAttachment` draws one id for each matching unit of each matching chapter. When the addressed ids occur more than once, each copy can get a different id. The model gives every copy the same `newId`. `CourseStore.Store.AddAttachment` inherits this.
- CourseEdits.AddFluidDefense: `addFluidDefense` draws one id for each chapter that carries the addressed id. When several chapters share that id, each copy can get a different id. The model gives every copy the same `newId`. `CourseStore.Store.AddFluidDefense` inherits this.
- The zustand store plumbing (`create`, `devtools`, `subscribeWithSelector`) and the notification of subscribers.
- Structural sharing: reference equality is not observable on Dafny values. Untouched siblings are stated as equal values instead.
- The React components and the seed literal in src/data/course.ts. The constructor takes the initial course as a parameter.
- Spreads of an explicitly `undefined` property: a `Partial` key that is present but `undefined` overwrites the field with `undefined` in the source. The model treats an `Option` as absent or present with a value.
- CourseEdits.UpdateAttachment: the update model covers note, filePath and commitHash and keeps the variant. An update's `type` tag is not modelled. The source spreads the update over the stored attachment and casts the result without checking it. So a `DOC_REF` changed to `CODE_REF` without a path becomes a `CODE_REF` with no `filePath`, and a `CODE_REF` changed to `DOC_REF` keeps a stale `filePath`.
- CourseEdits.ApplyAttachmentUpdate: same restriction as `UpdateAttachment`; a `filePath` or `commitHash` in an update of a `DOC_REF` is dropped instead of becoming a stray property.
- CourseEdits.UpdateFluidDefense: the update model covers the shared fields and the fields of the stored variant. An update's `type` tag is not modelled. Fields of another variant that the source would copy in, and any change of tag, are not modelled.
- CourseEdits.ApplyFluidDefenseUpdate: same restriction as `UpdateFluidDefense`.
- Numbers: ids, `sequenceOrder` and `correctOptionIndex` are integers. JavaScript `NaN`, fractional values and floating-point comparison are not modelled.
- Validators on values of the wrong runtime type: `validateMCQ` and `validateOpenQuestion` also reject an `options` or `evaluationCriteria` that is not an array. Candidate fields here are typed, so that branch does not arise.
- Strings are sequences of Unicode scalar values, not UTF-16 code units. `trim` is modelled over the ECMAScript whitespace and line-terminator code points.
