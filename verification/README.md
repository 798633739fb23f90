# STEM tutor: record handling, course editing, skill tree and boss arena

This project is a Dafny model of the record-handling core of a STEM tutoring app. It covers:

- **The flashcard/subject/progress service** (`backend/server.js`). Each handler reads a whole JSON document, changes it, and writes it back. The three documents are held in a `Store` value. A document that cannot be read is `None`. Whether the write succeeds is a boolean parameter. Each handler is a pure function returning either a new store with a response body or an error (400, 404 or 500) and no store.
- **The course builder** (both `CourseBuilder.tsx` versions). This covers:
  - create, edit, delete and share toggling over the course list;
  - the edit form's pre-fill and the submit button's guard;
  - comma-separated tag parsing;
  - `formatTime`;
  - the counters the course views show.
- **The skill tree** (both `SkillTree.tsx` versions). This covers:
  - grouping nodes by level and the highest level;
  - the levels and cards that get drawn;
  - the completed > unlocked > locked precedence behind the icon, colour and card highlight;
  - the progress bar and button rules;
  - the cached node list.
- **The boss arena** (`frontend/src/components/BossProblems.tsx`). This covers the start guard, the completed-phase count, the progress section, the reward preview, the lock note and the action button.

Modules, one per file:

- `Wrappers`: `Option` and `Result`.
- `Text`: JavaScript's `trim`, `split`, `join`, number printing, and a digit reader.
- `Seqs`: counting, summing, previews, and filtering by key.
- `Server` and `ServerProperties`: the record service.
- `Tags`, `Duration` and `Courses`: the course builder.
- `Unlocking`: the status precedence shared by skills and bosses.
- `SkillTree`.
- `Bosses`.

Identifiers, clock readings and write outcomes are parameters:

- A uuid or `Date.now()` identifier is an `id` argument.
- `new Date()` is a `now` timestamp argument.
- A write's success is a `writeOk` flag. A failed write is assumed to leave the stored document as it was.

Unique ids are only assumed where a property needs them, as a freshness precondition.

## Model

| member | source | states |
|---|---|---|
| Server.FindIndex | backend/server.js:91 | `findIndex` reports no index exactly when no record has the id; otherwise it reports the first record with that id |
| Server.ListFlashcards | backend/server.js:46-52 | GET returns the stored list; it fails with status 500 exactly when the document cannot be read |
| Server.CreateFlashcard | backend/server.js:54-84 | a falsy question, answer or subject gives 400 "Missing required fields". Otherwise the create succeeds exactly when the write does, and fails with 500 when it does not. On success exactly one record is appended at the end of the list (an unreadable list counts as empty). That record has the request's fields, difficulty defaulting to "medium", tags to [], both counters 0, no review and no update stamp. Nothing else changes |
| Server.UpdateFlashcard | backend/server.js:86-113 | an unknown id gives 404 with no write; otherwise the update succeeds exactly when the write does. Only the first record with the id changes. The five request fields replace the stored ones, even absent ones. Id, creation time, counters and last review are kept, and `updated` is stamped |
| Server.DeleteFlashcard | backend/server.js:115-131 | 404 exactly when no record has the id, and then nothing is written. Otherwise every record with the id is removed, the list shrinks, the id is gone, and the rest keep their order |
| Server.ReviewFlashcard | backend/server.js:133-157 | an unknown id gives 404. Otherwise the first record with the id is the only change. `timesReviewed` rises by one, `correctCount` by one exactly when `correct` is truthy, and `lastReviewed` is stamped; nothing else on the record changes |
| Server.ListSubjects | backend/server.js:159-166 | GET returns the stored subjects, or 500 exactly when they cannot be read |
| Server.CreateSubject | backend/server.js:168-194 | a falsy name gives 400. Otherwise one subject is appended, with icon defaulting to "BookOpen", colour to "bg-blue-500", and a flashcard count of 0. Success exactly when the write succeeds |
| ServerProperties.CreateSubjectThenList | backend/server.js:160-194 | listing after a subject create shows the old subjects then the new one, with its id, name, a zero count, and the icon and colour defaults used exactly when the request gave none (or gave the default) |
| ServerProperties.CreateSubjectKeepsIdsUnique | backend/server.js:168-194 | a subject create with a fresh id keeps subject ids distinct and leaves the flashcards and the progress record alone |
| Server.GetProgress | backend/server.js:196-203 | GET returns the stored record, or 500 exactly when it cannot be read |
| ServerProperties.UpdateThenGetProgress | backend/server.js:196-225 | after a successful PUT, GET returns the stored record (or the default one when none could be read) merged with the update |
| Server.UpdateProgress | backend/server.js:205-225 | a shallow merge. The merged keys are the union of both key sets, each updated key takes the update's value, and every other key keeps its stored value. An unreadable record is replaced by the default record (totalXP 0, level 1, streak 0, no last activity, no skills, no achievements) |
| ServerProperties.CreateKeepsIdsUnique | backend/server.js:61-78 | appending a record with a fresh id keeps all ids distinct |
| ServerProperties.RewritesKeepIds | backend/server.js:86-157 | update and review rewrite a record in place: the sequence of ids is unchanged |
| ServerProperties.DeleteKeepsIdsUnique | backend/server.js:115-131 | deleting keeps distinct ids distinct |
| ServerProperties.CreateThenList | backend/server.js:46-84 | listing right after a create shows the old list plus the new record, at the end |
| ServerProperties.DeleteThenNotFound | backend/server.js:86-157 | after a delete, update, review and a second delete of the same id all report 404 |
| ServerProperties.UnreadableFlashcards | backend/server.js:46-157 | with an unreadable flashcard document, GET fails with 500. Update, review and delete report 404. A valid create writes a one-element list |
| ServerProperties.FlashcardHandlersLeaveSubjects | backend/server.js:54-157 | no flashcard handler touches the subjects or the progress document |
| ServerProperties.ReviewAllCounts | backend/server.js:134-157 | over n reviews of a record, k of them correct: `timesReviewed` grows by n, `correctCount` by k, and `lastReviewed` is the last review's time. No other record or field changes |
| ServerProperties.MergesCompose | backend/server.js:217 | two successive progress updates equal one update with the second merged over the first |
| ServerProperties.MergeIdempotent | backend/server.js:217 | repeating a progress update changes nothing more |
| Seqs.Reject | backend/server.js:119 | `filter(x => key !== k)`. Every survivor is from the input and lacks the key, and every input element without the key survives. The length is unchanged exactly when no element had the key, and then the list is unchanged |
| Seqs.RejectAppend | backend/server.js:119 | filtering distributes over concatenation, so survivors keep their order |
| Seqs.RejectKeepsKeysUnique | backend/server.js:119 | filtering never creates a repeated key |
| Text.Trim | frontend/src/components/CourseBuilder.tsx:120 | `trim()` gives a contiguous piece of the input with no whitespace at either end, and everything cut off is whitespace (the ECMAScript whitespace and line-terminator set) |
| Text.TrimEmptyIff | frontend/src/components/CourseBuilder.tsx:829 | a string trims to nothing exactly when all its characters are whitespace |
| Text.Split | frontend/src/components/CourseBuilder.tsx:120 | `split(',')` gives at least one piece, none holding the separator, and joining the pieces with it gives back the input |
| Text.SplitJoin | frontend/src/components/CourseBuilder.tsx:167 | splitting a join of separator-free pieces gives back the pieces |
| Text.JoinEnds | frontend/src/components/CourseBuilder.tsx:167 | `join` starts with the first part, followed by the separator when there are more, and ends with the last part |
| Tags.ParseTags | frontend/src/components/CourseBuilder.tsx:120 | every parsed tag is nonempty, trimmed and comma-free; an empty field gives no tags. The earlier version does the same at src/components/CourseBuilder.tsx:152 |
| Tags.ParseTagsContents | frontend/src/components/CourseBuilder.tsx:144 | as a set, the parsed tags are the nonempty trims of the comma-separated pieces (order and repeats are stated by ParseTagsConcat) |
| Tags.ParseTagsConcat | frontend/src/components/CourseBuilder.tsx:120 | the tags of `a,b` are the tags of `a` followed by those of `b`, so parsing keeps the typed order and repeated tags |
| Tags.ParseSingleTag | frontend/src/components/CourseBuilder.tsx:120 | a comma-free text gives its trimmed self as the one tag, or no tag when that is empty |
| Tags.TrimAll | frontend/src/components/CourseBuilder.tsx:120 | `map(tag => tag.trim())`: same length, each piece trimmed in place |
| Tags.TrimAllAppend | frontend/src/components/CourseBuilder.tsx:120 | trimming piece by piece distributes over concatenation |
| Tags.DropEmpty | frontend/src/components/CourseBuilder.tsx:120 | `filter(Boolean)`: the survivors are the nonempty input strings, and a list with no empty string is kept whole |
| Tags.DropEmptyAppend | frontend/src/components/CourseBuilder.tsx:120 | dropping empties distributes over concatenation, so the survivors keep their order and repeats |
| Text.SplitAtSeparator | frontend/src/components/CourseBuilder.tsx:120 | splitting `a` + separator + `b` gives the pieces of `a` followed by the pieces of `b` |
| Tags.ParseJoinedTags | frontend/src/components/CourseBuilder.tsx:160-167 | re-parsing the ", "-joined pre-fill returns the original tags when each was nonempty, trimmed and comma-free |
| Duration.TimeParts | frontend/src/components/CourseBuilder.tsx:207-208 | hours are `Math.floor(minutes / 60)`: hours * 60 ≤ minutes < hours * 60 + 60, so they are positive exactly from 60 minutes on. For nonnegative minutes the remainder is below 60 and hours * 60 + remainder = minutes. For negative minutes the remainder lies in (−60, 0], and hours * 60 + remainder is the count itself when the remainder is 0 and one hour less otherwise |
| Duration.JsRemainder | frontend/src/components/CourseBuilder.tsx:208 | `%` with a positive divisor: on a nonnegative dividend it is the ordinary remainder in [0, b); on a negative one it lies in (−b, 0] and is the negation of the remainder of the negated dividend, as truncating division gives |
| Duration.FormatTime | frontend/src/components/CourseBuilder.tsx:206-213 | the text ends in "m" and holds an "h" exactly when there is at least an hour. The earlier version does the same at src/components/CourseBuilder.tsx:237-244 |
| Duration.FormatTimeCanonical | frontend/src/components/CourseBuilder.tsx:206-213 | for a nonnegative count, from one hour on the text is the floor of m/60, "h ", then m mod 60 (below 60), then "m"; under an hour it is the count followed by "m" |
| Duration.FormatTimeRoundTrip | frontend/src/components/CourseBuilder.tsx:206-213 | reading "Xh Ym" / "Ym" back gives the original minute count, for every nonnegative count |
| Text.NatToString | frontend/src/components/CourseBuilder.tsx:209-212 | a natural number in a template literal: at least one digit, only digits, no leading zero |
| Text.IntToString | frontend/src/components/CourseBuilder.tsx:209-212 | an integer in a template literal: for a negative number, one leading "-" followed by the rendering of its magnitude; for a nonnegative one, the natural rendering |
| Text.ParseNatToString | frontend/src/components/CourseBuilder.tsx:209-212 | reading a rendered natural number gives it back |
| Courses.CreateCourse | frontend/src/components/CourseBuilder.tsx:112-131 | exactly one course is appended after the unchanged old ones. It has the form's fields, parsed tags, no modules, progress 0, not shared, author "You" and total time 0. The form is reset and the dialog closed. The earlier version does the same at src/components/CourseBuilder.tsx:144-163 |
| Courses.CreateKeepsIdsUnique | frontend/src/components/CourseBuilder.tsx:112-131 | a create with an id no listed course has keeps course ids distinct, and the new course's tags are nonempty, trimmed and comma-free |
| Courses.CreateThenDelete | frontend/src/components/CourseBuilder.tsx:112-158 | deleting the course just created under a fresh id gives back the old list |
| Courses.EditCourses | frontend/src/components/CourseBuilder.tsx:136-147 | only courses with the id change, and only in title, description, subject, difficulty and tags. Id, modules, dates, progress, sharing, author and total time are kept |
| Courses.EditCourse | frontend/src/components/CourseBuilder.tsx:133-151 | nothing happens unless a course is being edited. Otherwise the edit is applied, and the edit state and the form are cleared. The earlier version does the same at src/components/CourseBuilder.tsx:165-183 |
| Courses.StartEdit | frontend/src/components/CourseBuilder.tsx:160-169 | the form takes the course's fields with its tags joined by ", ", and the course becomes the one being edited |
| Courses.EditUntouchedFormIsNoOp | src/components/CourseBuilder.tsx:165-201 | opening a listed course and saving the untouched form leaves the list unchanged (ids unique, tags clean) |
| Courses.DeleteCourse | frontend/src/components/CourseBuilder.tsx:153-158 | the course leaves the list and every other course stays. The list never grows; its length is unchanged exactly when no course had the id, and then the list is unchanged. The selection is cleared exactly when it showed the deleted course. The earlier version does the same at src/components/CourseBuilder.tsx:185-190 |
| Courses.DeleteCourseKeepsOrder | frontend/src/components/CourseBuilder.tsx:153-158 | deleting from a list split in two is deleting from each part, so the surviving courses keep their order and number |
| Courses.DeleteKeepsIdsUnique | frontend/src/components/CourseBuilder.tsx:153-158 | deleting keeps distinct course ids distinct |
| Courses.ToggleShare | frontend/src/components/CourseBuilder.tsx:171-177 | the shared flag flips on courses with the id; every other course is unchanged |
| Courses.ToggleShareTwice | src/components/CourseBuilder.tsx:203-209 | toggling twice restores the list |
| Courses.SubmitDisabled | frontend/src/components/CourseBuilder.tsx:829 | the submit button is disabled exactly when the title or the description is all whitespace. The earlier version does the same at src/components/CourseBuilder.tsx:656 |
| Courses.Submit | frontend/src/components/CourseBuilder.tsx:827-830 | a disabled submit changes nothing. An enabled one with no course being edited appends one new course (the form's fields, parsed tags, defaults) after the unchanged list and resets and closes the form. An enabled one during an edit applies the edit to the courses with the edited id and clears the edit and the form. The list never shrinks, and a growing list means a create of a course whose title has a non-whitespace character |
| Courses.CancelDialog | frontend/src/components/CourseBuilder.tsx:817-823 | Cancel closes the dialog, drops the edit and resets the form, leaving the courses alone |
| Courses.DismissDialog | frontend/src/components/CourseBuilder.tsx:720-726 | dismissing the dialog closes it and drops the edit, but keeps the courses, the selection and the form as typed |
| Courses.OpenCreateDialog | frontend/src/components/CourseBuilder.tsx:579-594 | the create buttons open the dialog on the form as it stands and change nothing else |
| Courses.DismissedEditPrefillsCreate | frontend/src/components/CourseBuilder.tsx:720-726 | after dismissing an edit, "Create Course" opens with that course's fields still in the form; after Cancel it opens on the blank form |
| Courses.CompletedCount | frontend/src/components/CourseBuilder.tsx:421 | the completed count is at most the number of modules. It is 0 exactly when none is completed, and the module count exactly when all are. The earlier version does the same at src/components/CourseBuilder.tsx:513 |
| Courses.DisplayedTimeMatchesEarlierVersion | frontend/src/components/CourseBuilder.tsx:406-407 | the later version's total time shows the course's own total exactly when it is nonzero or the modules add up to zero (no negative estimates), as the earlier version always does |
| Courses.DisplayedTime | frontend/src/components/CourseBuilder.tsx:406-407 | the shown text reads back as the course's total when that is positive, and as the modules' sum when the total is 0 and the sum is nonnegative; it shows hours exactly when the minutes it renders reach 60. For a nonnegative chosen count m (the total, or the sum when the total is 0) the text is exactly the floor of m/60, "h ", m mod 60 and "m" from one hour on, and m followed by "m" below it |
| Courses.TagBadges | frontend/src/components/CourseBuilder.tsx:688-701 | no tag row without tags. Otherwise all tags when there are at most three, and exactly the first three plus a "+n" badge with n = count − 3 when there are more. The earlier version does the same at src/components/CourseBuilder.tsx:516-529 |
| Courses.CourseCountLabel | frontend/src/components/CourseBuilder.tsx:563 | the header is the count followed by exactly " course" when the count is 1 and " courses" otherwise |
| Courses.ConsistentCourseRoundTrips | frontend/src/components/CourseBuilder.tsx:406-407 | a course whose total equals its modules' sum and whose tags are clean shows the same time in both versions, and its tags survive an edit round trip |
| Courses.SeedLinearAlgebraConsistent | src/components/CourseBuilder.tsx:41-88 | the earlier version's first course has a total (120) equal to its modules' sum and clean tags |
| Courses.SeedJavaScriptConsistent | src/components/CourseBuilder.tsx:89-119 | the earlier version's second course has a total (65) equal to its modules' sum and clean tags |
| Courses.SeedCoursesConsistent | src/components/CourseBuilder.tsx:40-120 | the earlier version's two courses have distinct ids, and both are consistent in the sense above |
| Seqs.CountWhereAppend | frontend/src/components/CourseBuilder.tsx:421 | counting the matches of a concatenation adds the counts of its halves, so with the one-element cases the count is the number of matching elements |
| Seqs.CountWhere | frontend/src/components/CourseBuilder.tsx:421 | `filter(p).length`: at most the length, 0 exactly when nothing matches, the length exactly when everything does |
| Seqs.PreviewOf | frontend/src/components/BossProblems.tsx:265-278 | `slice(0, n)`: all items when there are at most n, and exactly the first n when there are more. The rest-count badge appears exactly when items are cut, and the shown items plus the badge account for all |
| Seqs.PreviewOfLonger | frontend/src/components/BossProblems.tsx:265-278 | items added after a full preview leave the shown ones unchanged and only grow the badge |
| Unlocking.StatusOf | frontend/src/components/SkillTree.tsx:62-72 | completed outranks unlocked, and anything neither is locked (each status characterised both ways) |
| SkillTree.GroupByLevel | frontend/src/components/SkillTree.tsx:83-87 | there is a bucket exactly for each level that occurs, and each bucket is the node list filtered to that level, in list order. The earlier version does the same at src/components/SkillTree.tsx:149-153 |
| SkillTree.GroupingIsPartition | frontend/src/components/SkillTree.tsx:83-87 | a node is in a level's bucket exactly when it is a listed node of that level, so each node sits in exactly one bucket |
| Seqs.SelectAppend | src/components/SkillTree.tsx:149-153 | selecting by key distributes over concatenation (bucket order is list order) |
| SkillTree.MaxLevel | frontend/src/components/SkillTree.tsx:89 | absent exactly for an empty list. Otherwise it is at least every node's level and equals some node's level. The earlier version does the same at src/components/SkillTree.tsx:155 |
| SkillTree.RenderedLevels | src/components/SkillTree.tsx:184-185 | the drawn levels are exactly 1 to the maximum, ascending, and none when the maximum is below 1 or the list is empty |
| SkillTree.CardsAt | frontend/src/components/SkillTree.tsx:139-151 | a card is drawn exactly for the members of the buckets of the drawn levels |
| SkillTree.RenderedIffPositiveLevel | frontend/src/components/SkillTree.tsx:139-140 | a node gets a card exactly when its level is at least 1 |
| SkillTree.RenderedCards | frontend/src/components/SkillTree.tsx:139-151 | the tree draws a card for a node exactly when it is listed with a level of at least 1 |
| SkillTree.View | frontend/src/components/SkillTree.tsx:125-139 | the empty-state panel shows exactly for an empty list |
| SkillTree.StatusIcon | frontend/src/components/SkillTree.tsx:62-66 | the icon is the one the legend pairs with the node's status. The earlier version does the same at src/components/SkillTree.tsx:128-132 |
| SkillTree.StatusColor | frontend/src/components/SkillTree.tsx:68-72 | the colour is the one the legend pairs with the node's status. The earlier version does the same at src/components/SkillTree.tsx:134-138 |
| SkillTree.CardLookOf | frontend/src/components/SkillTree.tsx:158-162 | the card's ring follows the status: success ring, primary ring, or greyed out |
| SkillTree.ShowsProgress | frontend/src/components/SkillTree.tsx:208 | the progress bar shows exactly for unlocked, uncompleted nodes. The earlier version does the same at src/components/SkillTree.tsx:253 |
| SkillTree.ActionButton | frontend/src/components/SkillTree.tsx:228-236 | a button exactly on unlocked nodes. It is disabled exactly when the node is completed, and reads "Completed" when disabled and "Continue" when not. The earlier version does the same at src/components/SkillTree.tsx:273-281 |
| SkillTree.SaveSkillNodes | frontend/src/components/SkillTree.tsx:57-60 | the in-memory list and the cache entry are set to the same nodes |
| SkillTree.Mount | frontend/src/components/SkillTree.tsx:49-54 | with nothing cached the list starts empty |
| SkillTree.SaveThenMount | frontend/src/components/SkillTree.tsx:49-60 | a list that was saved is what the next mount shows |
| Unlocking.LegendDistinguishes | frontend/src/components/SkillTree.tsx:108-122 | the legend is unambiguous: different statuses have different icons, badges and card looks |
| SkillTree.SeedLevels | src/components/SkillTree.tsx:41-126 | the earlier version's fixed nodes have levels 1 to 3, and the highest is 3 |
| SkillTree.SeedLevelsDrawn | src/components/SkillTree.tsx:184-185 | that list draws levels 1, 2 and 3 |
| SkillTree.SeedNodesDrawn | src/components/SkillTree.tsx:41-126 | every node of that list gets a card |
| Bosses.StartBossChallenge | frontend/src/components/BossProblems.tsx:152-157 | starting a locked boss changes nothing; any other opens its detail dialog |
| Bosses.CardClick | frontend/src/components/BossProblems.tsx:194 | a card click only opens the dialog, or changes the selection, for an unlocked boss |
| Bosses.CardClickIsStart | frontend/src/components/BossProblems.tsx:194 | clicking a card does exactly what starting the challenge does |
| Bosses.CompletedPhases | frontend/src/components/BossProblems.tsx:180 | at most the number of phases. It is 0 exactly when no phase is completed, and the phase count exactly when all are |
| Bosses.ProgressSection | frontend/src/components/BossProblems.tsx:239-247 | the section shows exactly when some phase is completed. Its tally then has 0 < done ≤ total = number of phases |
| Bosses.HeaderBadge | frontend/src/components/BossProblems.tsx:215-221 | the header icon and colour are the shared badge of the boss's status |
| Bosses.BossCardLook | frontend/src/components/BossProblems.tsx:187-193 | the card's ring follows the status as for skill nodes |
| Bosses.RewardPreview | frontend/src/components/BossProblems.tsx:265-278 | all rewards when there are at most three, otherwise exactly the first three and a "+n more" badge with n = count − 3 |
| Bosses.PrerequisiteNote | frontend/src/components/BossProblems.tsx:283-287 | the lock note shows exactly on a locked boss with a nonempty prerequisite, and shows that prerequisite |
| Bosses.BossAction | frontend/src/components/BossProblems.tsx:290-303 | the button is disabled exactly when the boss is locked. It reads "Completed" exactly for completed bosses and "Locked" exactly for locked ones. It reads "Continue Challenge" for an available boss with a completed phase, else "Begin Challenge" |
| Bosses.ButtonAgreesWithProgress | frontend/src/components/BossProblems.tsx:239-302 | an enabled button never reads "Locked". On an available boss the progress section shows exactly when the button reads "Continue Challenge" |
| Bosses.RosterTimesAddUp | frontend/src/components/BossProblems.tsx:41-117 | each boss's advertised time (45, 70, 125) is the sum of its phase estimates |
| Bosses.RosterStanding | frontend/src/components/BossProblems.tsx:41-117 | only the first boss can be begun; the other two are locked and carry a lock note |

## Left out

- File reading and writing are abstracted to the `Store` value and the `writeOk` flag. JSON text formatting, the parse step and the error logging are not modelled.
- A write that fails after `fs.writeFile` has truncated the file (backend/server.js:35-42) is not modelled. Such a write can leave the document unreadable; the next read then gives null and a create starts from an empty list, losing the stored records. The model assumes a failed write leaves the document as it was. Once a document is unreadable, UnreadableFlashcards states what the handlers do.
- Handlers run one at a time. The unserialised concurrent read-modify-write in the service is not modelled: it is about concurrency, not about what one request does.
- Request bodies carry only strings (or absent values) in the flashcard and subject fields. Non-string JSON values there (numbers, objects) and their truthiness are not modelled. The review flag is given as its truthiness.
- `uuidv4()`, `new Date()` and `Date.now()` are parameters. Timestamps are opaque strings, and date arithmetic for the seed dates is not modelled.
- The health endpoint and the server start-up are not modelled: they hold no record logic.
- The later course builder's mount effect, sample-course fetch, date conversion and browser-cache writes are not modelled. They are I/O over `fetch` and `localStorage`; only the skill tree's save/mount pair is modelled, with the cache as an optional list.
- The markdown-to-HTML rewriting in the course builder's module viewer is not modelled: its chained JavaScript regular expressions are out of reach at reasonable cost.
- The module viewer, the "Continue"/"Start Course" button text, difficulty and subject colour tables and all other JSX styling are not modelled: presentation only.
- Duration.FormatTime: for negative minute counts the contract states only the text's shape, not its value. `Math.floor` and `%` disagree in sign there, and no view passes a negative count.
- Duration.FormatTimeRoundTrip: proved for nonnegative counts only. For negative ones the text does not determine the count (−90 and −30 both print "-30m").
- Numbers are integers. Fractional minute counts, levels and estimates, fractional numbers in a progress record (`JNum` holds an integer), and the NaN/infinity cases they could cause, are not modelled. The progress merge does not look at values, so nothing it promises depends on this.
- Bosses.ProgressSection: the percentage bar value `completedPhases / totalPhases * 100` is floating point and is not modelled. Only the done/total tally is modelled.
- `completeBossPhase` only logs a line and changes nothing, so it is not modelled.
- The skill tree's connection lines, "Add Skill" dialog (which only closes itself) and subject colours are not modelled: presentation only.
- Boss, phase and reward descriptions are dropped from the boss records: no modelled decision reads them.
- The Python LLM service, the chat interface, the message card and both sidebars are not part of this model: they are network and presentation code around the core.
