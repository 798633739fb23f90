/**
 * The course builder's course list: create, edit, delete and share toggling
 * over the in-memory list, the edit form's pre-fill, the submit guard, and the
 * counters the course views derive. Both versions of the component share these
 * handlers; they differ in where the list comes from (a static list in the
 * earlier one) and in how the detail view shows the total time.
 */
module Courses {
  import opened Wrappers
  import opened Text
  import Seqs
  import Tags
  import Duration

  type Timestamp = string

  datatype ModuleKind = Lesson | Flashcards | Practice | Game

  datatype CourseModule = CourseModule(
    id: string,
    title: string,
    description: string,
    kind: ModuleKind,
    completed: bool,
    estimatedTime: int)

  datatype Difficulty = Beginner | Intermediate | Advanced

  datatype Course = Course(
    id: string,
    title: string,
    description: string,
    subject: string,
    difficulty: Difficulty,
    modules: seq<CourseModule>,
    tags: seq<string>,
    created: Timestamp,
    lastAccessed: Option<Timestamp>,
    progress: int,
    isShared: bool,
    author: string,
    totalTime: int)

  /** The create/edit dialog's fields; the tags are the raw comma-separated text. */
  datatype CourseForm = CourseForm(
    title: string,
    description: string,
    subject: string,
    difficulty: Difficulty,
    tags: string)

  /** The form as it is reset after a create, an edit or a cancel. */
  const BlankForm := CourseForm("", "", "math", Beginner, "")

  /** The component's state: the course list, the form, the open dialog, the course being edited and the one being viewed. */
  datatype Editor = Editor(
    courses: seq<Course>,
    form: CourseForm,
    showCreateDialog: bool,
    editing: Option<Course>,
    selected: Option<Course>)

  function CourseId(c: Course): string {
    c.id
  }

  // ---------------------------------------------------------------- create

  /** The course a create appends: the form's fields, parsed tags, and a fresh, empty, private course. */
  predicate IsNewCourse(c: Course, form: CourseForm, id: string, now: Timestamp) {
    && c.id == id && c.created == now && c.lastAccessed == None
    && c.title == form.title && c.description == form.description
    && c.subject == form.subject && c.difficulty == form.difficulty
    && c.tags == Tags.ParseTags(form.tags)
    && c.modules == [] && c.progress == 0 && !c.isShared && c.author == "You" && c.totalTime == 0
  }

  /** `handleCreateCourse`; `id` stands for `Date.now().toString()` and `now` for `new Date()`. */
  function CreateCourse(e: Editor, id: string, now: Timestamp): (r: Editor)
    ensures |r.courses| == |e.courses| + 1 && r.courses[..|e.courses|] == e.courses
    ensures IsNewCourse(r.courses[|e.courses|], e.form, id, now)
    ensures r.form == BlankForm && !r.showCreateDialog
    ensures r.editing == e.editing && r.selected == e.selected
  {
    var course := Course(id, e.form.title, e.form.description, e.form.subject, e.form.difficulty,
      [], Tags.ParseTags(e.form.tags), now, None, 0, false, "You", 0);
    e.(courses := e.courses + [course], form := BlankForm, showCreateDialog := false)
  }

  /** A create with an id no listed course has keeps the course ids unique, and the new course's tags are clean. */
  lemma CreateKeepsIdsUnique(e: Editor, id: string, now: Timestamp)
    requires Seqs.UniqueKeys(e.courses, CourseId) && !Seqs.HasKey(e.courses, CourseId, id)
    ensures Seqs.UniqueKeys(CreateCourse(e, id, now).courses, CourseId)
    ensures forall t :: t in CreateCourse(e, id, now).courses[|e.courses|].tags ==> Tags.IsCleanTag(t)
  {
    var after := CreateCourse(e, id, now).courses;
    forall i, j | 0 <= i < j < |after|
      ensures after[i].id != after[j].id
    {
      if j == |e.courses| {
        assert after[i] == e.courses[i];
      } else {
        assert after[i] == e.courses[i] && after[j] == e.courses[j];
      }
    }
  }

  /** Deleting the course just created, under an id no other course has, gives back the old list. */
  lemma CreateThenDelete(e: Editor, id: string, now: Timestamp)
    requires !Seqs.HasKey(e.courses, CourseId, id)
    ensures DeleteCourse(CreateCourse(e, id, now), id).courses == e.courses
  {
    var after := CreateCourse(e, id, now).courses;
    assert after == e.courses + [after[|e.courses|]];
    Seqs.RejectAppend(e.courses, [after[|e.courses|]], CourseId, id);
    assert Seqs.HasKey([after[|e.courses|]], CourseId, id);
  }

  // ---------------------------------------------------------------- edit

  /** An edit replaces the five form fields and keeps everything else of the course. */
  predicate IsEditedCourse(before: Course, after: Course, form: CourseForm) {
    && after.id == before.id && after.modules == before.modules
    && after.created == before.created && after.lastAccessed == before.lastAccessed
    && after.progress == before.progress && after.isShared == before.isShared
    && after.author == before.author && after.totalTime == before.totalTime
    && after.title == form.title && after.description == form.description
    && after.subject == form.subject && after.difficulty == form.difficulty
    && after.tags == Tags.ParseTags(form.tags)
  }

  /** The list map inside `handleEditCourse`: every course with the id is edited, the others are kept. */
  function EditCourses(courses: seq<Course>, id: string, form: CourseForm): (r: seq<Course>)
    ensures |r| == |courses|
    ensures forall i :: 0 <= i < |r| && courses[i].id == id ==> IsEditedCourse(courses[i], r[i], form)
    ensures forall i :: 0 <= i < |r| && courses[i].id != id ==> r[i] == courses[i]
  {
    seq(|courses|, i requires 0 <= i < |courses| =>
      if courses[i].id == id then
        courses[i].(title := form.title, description := form.description, subject := form.subject,
                    difficulty := form.difficulty, tags := Tags.ParseTags(form.tags))
      else courses[i])
  }

  /** `handleEditCourse`: nothing happens unless a course is being edited. */
  function EditCourse(e: Editor): (r: Editor)
    ensures e.editing.None? ==> r == e
    ensures e.editing.Some? ==>
      && r.courses == EditCourses(e.courses, e.editing.value.id, e.form)
      && r.editing == None && r.form == BlankForm
      && r.showCreateDialog == e.showCreateDialog && r.selected == e.selected
  {
    match e.editing
    case None => e
    case Some(c) => e.(courses := EditCourses(e.courses, c.id, e.form), editing := None, form := BlankForm)
  }

  /** `startEdit`: the form is filled from the course, its tags joined with ", ". */
  function StartEdit(e: Editor, c: Course): (r: Editor)
    ensures r.editing == Some(c)
    ensures r.form == CourseForm(c.title, c.description, c.subject, c.difficulty, Tags.JoinTags(c.tags))
    ensures r.courses == e.courses && r.selected == e.selected && r.showCreateDialog == e.showCreateDialog
  {
    e.(editing := Some(c), form := CourseForm(c.title, c.description, c.subject, c.difficulty, Tags.JoinTags(c.tags)))
  }

  /**
   * Opening a listed course for editing and saving the form untouched leaves
   * the list as it was, when ids are unique and the course's tags are the
   * kind the parser produces.
   */
  lemma EditUntouchedFormIsNoOp(e: Editor, c: Course)
    requires c in e.courses && Seqs.UniqueKeys(e.courses, CourseId)
    requires forall t :: t in c.tags ==> Tags.IsCleanTag(t)
    ensures EditCourse(StartEdit(e, c)).courses == e.courses
  {
    Tags.ParseJoinedTags(c.tags);
    var r := EditCourse(StartEdit(e, c)).courses;
    var k :| 0 <= k < |e.courses| && e.courses[k] == c;
    forall i | 0 <= i < |r|
      ensures r[i] == e.courses[i]
    {
      if e.courses[i].id == c.id && i != k {
        assert false;
      }
    }
  }

  // ---------------------------------------------------------------- delete

  /** `handleDeleteCourse`: the course leaves the list, and the detail view closes if it showed that course. */
  function DeleteCourse(e: Editor, id: string): (r: Editor)
    ensures forall i :: 0 <= i < |r.courses| ==> r.courses[i] in e.courses && r.courses[i].id != id
    ensures forall i :: 0 <= i < |e.courses| && e.courses[i].id != id ==> e.courses[i] in r.courses
    ensures |r.courses| <= |e.courses|
    ensures |r.courses| == |e.courses| <==> !Seqs.HasKey(e.courses, CourseId, id)
    ensures !Seqs.HasKey(e.courses, CourseId, id) ==> r.courses == e.courses
    ensures r.selected.None? <==> e.selected.None? || e.selected.value.id == id
    ensures r.selected.Some? ==> r.selected == e.selected
    ensures r.form == e.form && r.editing == e.editing && r.showCreateDialog == e.showCreateDialog
  {
    var kept := Seqs.Reject(e.courses, CourseId, id);
    var selected := if e.selected.Some? && e.selected.value.id == id then None else e.selected;
    e.(courses := kept, selected := selected)
  }

  /**
   * Deleting keeps the surviving courses in their order: deleting from a list
   * split in two is deleting from each part.
   */
  lemma DeleteCourseKeepsOrder(e: Editor, a: seq<Course>, b: seq<Course>, id: string)
    requires e.courses == a + b
    ensures DeleteCourse(e, id).courses
      == DeleteCourse(e.(courses := a), id).courses + DeleteCourse(e.(courses := b), id).courses
  {
    Seqs.RejectAppend(a, b, CourseId, id);
  }

  /** Deleting keeps distinct course ids distinct. */
  lemma DeleteKeepsIdsUnique(e: Editor, id: string)
    requires Seqs.UniqueKeys(e.courses, CourseId)
    ensures Seqs.UniqueKeys(DeleteCourse(e, id).courses, CourseId)
  {
    Seqs.RejectKeepsKeysUnique(e.courses, CourseId, id);
  }

  // ---------------------------------------------------------------- share

  /** `toggleShareCourse`: flips the shared flag of the courses with the id and of nothing else. */
  function ToggleShare(courses: seq<Course>, id: string): (r: seq<Course>)
    ensures |r| == |courses|
    ensures forall i :: 0 <= i < |r| && courses[i].id == id ==> r[i] == courses[i].(isShared := !courses[i].isShared)
    ensures forall i :: 0 <= i < |r| && courses[i].id != id ==> r[i] == courses[i]
  {
    seq(|courses|, i requires 0 <= i < |courses| =>
      if courses[i].id == id then courses[i].(isShared := !courses[i].isShared) else courses[i])
  }

  /** Toggling the same course twice restores the list. */
  lemma ToggleShareTwice(courses: seq<Course>, id: string)
    ensures ToggleShare(ToggleShare(courses, id), id) == courses
  {
    var r := ToggleShare(ToggleShare(courses, id), id);
    assert forall i :: 0 <= i < |r| ==> r[i] == courses[i];
  }

  // ---------------------------------------------------------------- the dialog's submit button

  /** The submit button is disabled while the title or the description trims to nothing. */
  function SubmitDisabled(form: CourseForm): (disabled: bool)
    ensures disabled <==>
      (forall k :: 0 <= k < |form.title| ==> IsWhitespace(form.title[k]))
      || (forall k :: 0 <= k < |form.description| ==> IsWhitespace(form.description[k]))
  {
    TrimEmptyIff(form.title);
    TrimEmptyIff(form.description);
    Trim(form.title) == [] || Trim(form.description) == []
  }

  /** The dialog's submit button: an edit when a course is being edited, a create otherwise, nothing when disabled. */
  function Submit(e: Editor, id: string, now: Timestamp): (r: Editor)
    ensures SubmitDisabled(e.form) ==> r == e
    ensures !SubmitDisabled(e.form) && e.editing.None? ==>
      && |r.courses| == |e.courses| + 1 && r.courses[..|e.courses|] == e.courses
      && IsNewCourse(r.courses[|e.courses|], e.form, id, now)
      && r.form == BlankForm && !r.showCreateDialog
    ensures !SubmitDisabled(e.form) && e.editing.Some? ==>
      && r.courses == EditCourses(e.courses, e.editing.value.id, e.form)
      && r.editing.None? && r.form == BlankForm
    ensures |r.courses| >= |e.courses|
    ensures |r.courses| > |e.courses| ==>
      && e.editing.None? && |r.courses| == |e.courses| + 1
      && exists k :: 0 <= k < |r.courses[|e.courses|].title| && !IsWhitespace(r.courses[|e.courses|].title[k])
  {
    if SubmitDisabled(e.form) then e
    else if e.editing.Some? then EditCourse(e)
    else CreateCourse(e, id, now)
  }

  /** The dialog's Cancel button: closes the dialog, drops the edit and clears the form. */
  function CancelDialog(e: Editor): (r: Editor)
    ensures r.courses == e.courses && r.selected == e.selected
    ensures !r.showCreateDialog && r.editing.None? && r.form == BlankForm
  {
    e.(showCreateDialog := false, editing := None, form := BlankForm)
  }

  /**
   * Dismissing the dialog (the overlay or the close button): it closes and
   * the edit is dropped, but unlike Cancel the form keeps what was typed, so
   * the next "Create Course" opens with those fields.
   */
  function DismissDialog(e: Editor): (r: Editor)
    ensures r.courses == e.courses && r.selected == e.selected && r.form == e.form
    ensures !r.showCreateDialog && r.editing.None?
  {
    e.(showCreateDialog := false, editing := None)
  }

  /** `setShowCreateDialog(true)`, the create buttons: the dialog opens on the form as it stands. */
  function OpenCreateDialog(e: Editor): (r: Editor)
    ensures r.showCreateDialog
    ensures r.courses == e.courses && r.form == e.form && r.editing == e.editing && r.selected == e.selected
  {
    e.(showCreateDialog := true)
  }

  /** After a dismissed edit, "Create Course" opens with the dismissed course's fields still in the form. */
  lemma DismissedEditPrefillsCreate(e: Editor, c: Course)
    ensures OpenCreateDialog(DismissDialog(StartEdit(e, c))).form
      == CourseForm(c.title, c.description, c.subject, c.difficulty, Tags.JoinTags(c.tags))
    ensures OpenCreateDialog(CancelDialog(StartEdit(e, c))).form == BlankForm
  {
  }

  // ---------------------------------------------------------------- derived values

  function EstimatedTime(m: CourseModule): int {
    m.estimatedTime
  }

  predicate IsCompleted(m: CourseModule) {
    m.completed
  }

  /** The minutes of all modules added up, as the detail view's fallback total. */
  function ModulesTime(c: Course): int {
    Seqs.Sum(c.modules, EstimatedTime)
  }

  /** The completed-modules counter of the course card and of the detail view. */
  function CompletedCount(c: Course): (n: nat)
    ensures n <= |c.modules|
    ensures n == 0 <==> forall i :: 0 <= i < |c.modules| ==> !c.modules[i].completed
    ensures n == |c.modules| <==> forall i :: 0 <= i < |c.modules| ==> c.modules[i].completed
  {
    Seqs.CountWhere(c.modules, IsCompleted)
  }

  /** The detail view's total time: the course's own total unless it is zero, else the modules' sum. */
  function DisplayedTime(c: Course): (text: string)
    ensures c.totalTime > 0 ==> Duration.ParseDuration(text) == Some(c.totalTime)
    ensures c.totalTime == 0 && ModulesTime(c) >= 0 ==> Duration.ParseDuration(text) == Some(ModulesTime(c))
    ensures 'h' in text <==> (if c.totalTime != 0 then c.totalTime else ModulesTime(c)) >= 60
    ensures var m := if c.totalTime != 0 then c.totalTime else ModulesTime(c);
      m >= 60 ==> text == NatToString(m / 60) + "h " + NatToString(m % 60) + "m"
    ensures var m := if c.totalTime != 0 then c.totalTime else ModulesTime(c);
      0 <= m < 60 ==> text == NatToString(m) + "m"
  {
    var minutes := if c.totalTime != 0 then c.totalTime else ModulesTime(c);
    if minutes >= 0 then
      Duration.FormatTimeRoundTrip(minutes);
      Duration.FormatTimeCanonical(minutes);
      Duration.FormatTime(minutes)
    else Duration.FormatTime(minutes)
  }

  /**
   * The detail view of the later version shows what the earlier one shows
   * (the course's own total) exactly when that total is nonzero or the modules
   * add up to zero, given no module has a negative estimate.
   */
  lemma DisplayedTimeMatchesEarlierVersion(c: Course)
    requires forall i :: 0 <= i < |c.modules| ==> c.modules[i].estimatedTime >= 0
    ensures DisplayedTime(c) == Duration.FormatTime(c.totalTime) <==> c.totalTime != 0 || ModulesTime(c) == 0
  {
    if c.totalTime == 0 {
      Seqs.SumNonNegative(c.modules, EstimatedTime);
      var t := ModulesTime(c);
      Duration.FormatTimeRoundTrip(t);
      Duration.FormatTimeRoundTrip(0);
    }
  }

  /** The course card's tag row: absent without tags, else the first three and a "+n" badge for the rest. */
  function TagBadges(c: Course): (r: Option<Seqs.Preview<string>>)
    ensures r.None? <==> c.tags == []
    ensures r.Some? ==> r.value.shown <= c.tags && |r.value.shown| <= 3
    ensures r.Some? ==> (r.value.more.Some? <==> |c.tags| > 3)
    ensures r.Some? && r.value.more.Some? ==> r.value.more.value == |c.tags| - 3
    ensures r.Some? && r.value.more.Some? ==> r.value.shown == c.tags[..3]
    ensures r.Some? && r.value.more.None? ==> r.value.shown == c.tags
  {
    if |c.tags| > 0 then Some(Seqs.PreviewOf(c.tags, 3)) else None
  }

  /** The list header, "1 course" or "n courses". */
  function CourseCountLabel(n: nat): (text: string)
    ensures |text| > |NatToString(n)|
    ensures text[..|NatToString(n)|] == NatToString(n)
    ensures n == 1 <==> text[|text| - 1] != 's'
    ensures text[|NatToString(n)|..] == if n == 1 then " course" else " courses"
  {
    NatToString(n) + " course" + (if n != 1 then "s" else "")
  }

  // ---------------------------------------------------------------- the earlier version's initial list

  function SeedModulesA(): seq<CourseModule> {
    [ CourseModule("m1", "Introduction to Vectors", "Learn about vector operations and properties", Lesson, true, 30),
      CourseModule("m2", "Vector Practice Set", "Practice vector addition and scalar multiplication", Flashcards, true, 20),
      CourseModule("m3", "Matrix Operations", "Addition, subtraction, and multiplication of matrices", Lesson, false, 45),
      CourseModule("m4", "Matrix Game Challenge", "Interactive matrix multiplication game", Game, false, 25) ]
  }

  function SeedModulesB(): seq<CourseModule> {
    [ CourseModule("m5", "Variables and Data Types", "Understanding JavaScript variables and basic data types", Lesson, true, 25),
      CourseModule("m6", "Functions for Calculations", "Writing functions for mathematical computations", Practice, false, 40) ]
  }

  function SeedLinearAlgebra(created: Timestamp, accessed: Timestamp): Course {
    Course("1", "Linear Algebra Fundamentals",
      "Master vectors, matrices, and linear transformations through interactive lessons and practice problems.",
      "math", Intermediate, SeedModulesA(), ["linear-algebra", "vectors", "matrices"],
      created, Some(accessed), 50, false, "You", 120)
  }

  function SeedJavaScript(created: Timestamp): Course {
    Course("2", "JavaScript Basics for STEM",
      "Learn JavaScript programming concepts through scientific computing examples and interactive coding challenges.",
      "coding", Beginner, SeedModulesB(), ["javascript", "programming", "stem"],
      created, None, 30, true, "You", 65)
  }

  /** The two courses the earlier version starts with; the dates are relative to the clock and come in as parameters. */
  function SeedCourses(fiveDaysAgo: Timestamp, oneDayAgo: Timestamp, threeDaysAgo: Timestamp): seq<Course> {
    [SeedLinearAlgebra(fiveDaysAgo, oneDayAgo), SeedJavaScript(threeDaysAgo)]
  }

  /** A course whose stored total is its modules' sum and whose tags are all as the parser makes them. */
  predicate ConsistentCourse(c: Course) {
    && c.totalTime == ModulesTime(c)
    && forall t :: t in c.tags ==> Tags.IsCleanTag(t)
  }

  /** A consistent course shows the same time in both versions and keeps its tags through an edit. */
  lemma ConsistentCourseRoundTrips(c: Course)
    requires ConsistentCourse(c)
    ensures DisplayedTime(c) == Duration.FormatTime(c.totalTime)
    ensures Tags.ParseTags(Tags.JoinTags(c.tags)) == c.tags
  {
    Tags.ParseJoinedTags(c.tags);
  }

  lemma SeedLinearAlgebraConsistent(created: Timestamp, accessed: Timestamp)
    ensures ConsistentCourse(SeedLinearAlgebra(created, accessed))
  {
    assert Seqs.Sum(SeedModulesA(), EstimatedTime) == 120;
    CleanTags(["linear-algebra", "vectors", "matrices"]);
  }

  lemma SeedJavaScriptConsistent(created: Timestamp)
    ensures ConsistentCourse(SeedJavaScript(created))
  {
    assert Seqs.Sum(SeedModulesB(), EstimatedTime) == 65;
    CleanTags(["javascript", "programming", "stem"]);
  }

  /** Tags made of lower-case letters and hyphens are clean. */
  lemma CleanTags(tags: seq<string>)
    requires forall k :: 0 <= k < |tags| ==> tags[k] != [] && forall i :: 0 <= i < |tags[k]| ==> 'a' <= tags[k][i] <= 'z' || tags[k][i] == '-'
    ensures forall t :: t in tags ==> Tags.IsCleanTag(t)
  {
  }

  /**
   * The initial list is consistent: ids are distinct, and every stored total
   * is its modules' sum and every tag is clean, so both versions show the
   * same time and every tag survives an edit round trip.
   */
  lemma SeedCoursesConsistent(fiveDaysAgo: Timestamp, oneDayAgo: Timestamp, threeDaysAgo: Timestamp)
    ensures Seqs.UniqueKeys(SeedCourses(fiveDaysAgo, oneDayAgo, threeDaysAgo), CourseId)
    ensures forall c :: c in SeedCourses(fiveDaysAgo, oneDayAgo, threeDaysAgo) ==> ConsistentCourse(c)
  {
    SeedLinearAlgebraConsistent(fiveDaysAgo, oneDayAgo);
    SeedJavaScriptConsistent(threeDaysAgo);
  }
}
