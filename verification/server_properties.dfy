/** Properties that relate several calls of the record service to each other. */
module ServerProperties {
  import opened Wrappers
  import Seqs
  import opened Server

  // ---------------------------------------------------------------- id uniqueness

  /** A create with a fresh id keeps the flashcard ids unique. */
  lemma CreateKeepsIdsUnique(s: Store, req: FlashcardRequest, id: Id, now: Timestamp)
    requires UniqueIds(s.flashcards.GetOr([])) && !HasId(s.flashcards.GetOr([]), id)
    requires CreateFlashcard(s, req, id, now, true).Success?
    ensures UniqueIds(CreateFlashcard(s, req, id, now, true).value.store.flashcards.value)
  {
    var cards := s.flashcards.GetOr([]);
    var after := CreateFlashcard(s, req, id, now, true).value.store.flashcards.value;
    assert after == cards + [CreateFlashcard(s, req, id, now, true).value.body];
    forall i, j | 0 <= i < j < |after|
      ensures after[i].id != after[j].id
    {
      if j == |cards| {
        assert after[i] == cards[i];
      }
    }
  }

  /** Update and review rewrite one record in place and never its id: the id list is unchanged. */
  lemma RewritesKeepIds(s: Store, id: Id, req: FlashcardRequest, correct: bool, now: Timestamp)
    ensures var u := UpdateFlashcard(s, id, req, now, true);
      u.Success? ==> SameIds(s.flashcards.GetOr([]), u.value.store.flashcards.value)
    ensures var v := ReviewFlashcard(s, id, correct, now, true);
      v.Success? ==> SameIds(s.flashcards.GetOr([]), v.value.store.flashcards.value)
  {
    var cards := s.flashcards.GetOr([]);
    if HasId(cards, id) {
      var i := FindIndex(cards, id).value;
      assert FirstWithId(cards, id, i);
    }
  }

  predicate SameIds(a: seq<Flashcard>, b: seq<Flashcard>) {
    |a| == |b| && forall j :: 0 <= j < |a| ==> a[j].id == b[j].id
  }

  /** A successful delete keeps the flashcard ids unique. */
  lemma DeleteKeepsIdsUnique(s: Store, id: Id)
    requires UniqueIds(s.flashcards.GetOr([]))
    requires DeleteFlashcard(s, id, true).Success?
    ensures UniqueIds(DeleteFlashcard(s, id, true).value.store.flashcards.value)
  {
    Seqs.RejectKeepsKeysUnique(s.flashcards.GetOr([]), CardId, id);
  }

  // ---------------------------------------------------------------- round trips

  /** Creating a flashcard and then listing the collection shows the new record exactly once, at the end. */
  lemma CreateThenList(s: Store, req: FlashcardRequest, id: Id, now: Timestamp)
    requires ValidFlashcardRequest(req) && !HasId(s.flashcards.GetOr([]), id)
    ensures var c := CreateFlashcard(s, req, id, now, true);
      && c.Success?
      && var listed := ListFlashcards(c.value.store);
      && listed.Success?
      && |listed.value| == |s.flashcards.GetOr([])| + 1
      && FirstWithId(listed.value, id, |listed.value| - 1)
      && IsNewFlashcard(listed.value[|listed.value| - 1], req, id, now)
  {
  }

  /** After a successful delete the id is gone: update, review and a second delete all report not found. */
  lemma DeleteThenNotFound(s: Store, id: Id, req: FlashcardRequest, correct: bool, now: Timestamp, writeOk: bool)
    requires DeleteFlashcard(s, id, true).Success?
    ensures var s1 := DeleteFlashcard(s, id, true).value.store;
      && UpdateFlashcard(s1, id, req, now, writeOk) == Failure(NotFound("Flashcard not found"))
      && ReviewFlashcard(s1, id, correct, now, writeOk) == Failure(NotFound("Flashcard not found"))
      && DeleteFlashcard(s1, id, writeOk) == Failure(NotFound("Flashcard not found"))
  {
  }

  /**
   * An unreadable flashcard document reads as an empty list for the writing
   * handlers (lookups fail, a create writes a one-element list) but as a server
   * error for the listing.
   */
  lemma UnreadableFlashcards(s: Store, id: Id, req: FlashcardRequest, correct: bool, now: Timestamp, writeOk: bool)
    requires s.flashcards.None?
    ensures StatusCode(ListFlashcards(s).error) == 500
    ensures UpdateFlashcard(s, id, req, now, writeOk).error.NotFound?
    ensures ReviewFlashcard(s, id, correct, now, writeOk).error.NotFound?
    ensures DeleteFlashcard(s, id, writeOk).error.NotFound?
    ensures ValidFlashcardRequest(req) && writeOk ==>
      var c := CreateFlashcard(s, req, id, now, writeOk);
      c.Success? && c.value.store.flashcards == Some([c.value.body])
  {
    if ValidFlashcardRequest(req) && writeOk {
      var c := CreateFlashcard(s, req, id, now, writeOk);
      assert [] + [c.value.body] == [c.value.body];
    }
  }

  /** Flashcard handlers never touch the subjects, so a subject's flashcard count is never recomputed. */
  lemma FlashcardHandlersLeaveSubjects(s: Store, id: Id, req: FlashcardRequest, correct: bool, now: Timestamp)
    ensures var c := CreateFlashcard(s, req, id, now, true);
      c.Success? ==> c.value.store.subjects == s.subjects && c.value.store.progress == s.progress
    ensures var d := DeleteFlashcard(s, id, true);
      d.Success? ==> d.value.store.subjects == s.subjects && d.value.store.progress == s.progress
    ensures var u := UpdateFlashcard(s, id, req, now, true);
      u.Success? ==> u.value.store.subjects == s.subjects && u.value.store.progress == s.progress
    ensures var v := ReviewFlashcard(s, id, correct, now, true);
      v.Success? ==> v.value.store.subjects == s.subjects && v.value.store.progress == s.progress
  {
    var cards := s.flashcards.GetOr([]);
    if HasId(cards, id) {
      var i := FindIndex(cards, id).value;
      assert FirstWithId(cards, id, i);
    }
  }

  // ---------------------------------------------------------------- subjects

  function SubjectId(x: Subject): Id {
    x.id
  }

  /** Creating a subject and then listing shows the old subjects and the new one, at the end, with its defaults. */
  lemma CreateSubjectThenList(s: Store, req: SubjectRequest, id: Id, now: Timestamp)
    requires Truthy(req.name)
    ensures var c := CreateSubject(s, req, id, now, true);
      && c.Success?
      && var listed := ListSubjects(c.value.store);
      && listed.Success?
      && listed.value[..|listed.value| - 1] == s.subjects.GetOr([])
      && var x := listed.value[|listed.value| - 1];
      && x.id == id && x.name == req.name.value && x.flashcardCount == 0
      && (x.icon == "BookOpen" <==> !Truthy(req.icon) || req.icon.value == "BookOpen")
      && (x.color == "bg-blue-500" <==> !Truthy(req.color) || req.color.value == "bg-blue-500")
  {
  }

  /** A subject create with a fresh id keeps the subject ids unique, and leaves the flashcards and progress alone. */
  lemma CreateSubjectKeepsIdsUnique(s: Store, req: SubjectRequest, id: Id, now: Timestamp)
    requires Seqs.UniqueKeys(s.subjects.GetOr([]), SubjectId) && !Seqs.HasKey(s.subjects.GetOr([]), SubjectId, id)
    requires CreateSubject(s, req, id, now, true).Success?
    ensures var st := CreateSubject(s, req, id, now, true).value.store;
      && Seqs.UniqueKeys(st.subjects.value, SubjectId)
      && st.flashcards == s.flashcards && st.progress == s.progress
  {
    var before := s.subjects.GetOr([]);
    var after := CreateSubject(s, req, id, now, true).value.store.subjects.value;
    assert after == before + [after[|before|]];
    forall i, j | 0 <= i < j < |after|
      ensures after[i].id != after[j].id
    {
      if j == |before| {
        assert after[i] == before[i];
      } else {
        assert after[i] == before[i] && after[j] == before[j];
      }
    }
  }

  // ---------------------------------------------------------------- review counters

  /** One review request: the truthiness of its `correct` flag and the time it is handled. */
  datatype ReviewCall = ReviewCall(correct: bool, at: Timestamp)

  predicate IsCorrect(c: ReviewCall) {
    c.correct
  }

  /** Handles review requests for one id in order, every write succeeding. */
  function ReviewAll(s: Store, id: Id, calls: seq<ReviewCall>): Store
    decreases |calls|
  {
    if |calls| == 0 then s
    else match ReviewFlashcard(s, id, calls[0].correct, calls[0].at, true)
      case Success(reply) => ReviewAll(reply.store, id, calls[1..])
      case Failure(_) => s
  }

  /** A record that differs from another at most in its review counters and stamp. */
  predicate SameExceptReviewStats(a: Flashcard, b: Flashcard) {
    a.(timesReviewed := 0, correctCount := 0, lastReviewed := None)
      == b.(timesReviewed := 0, correctCount := 0, lastReviewed := None)
  }

  /**
   * Over n review requests of which k are correct, `timesReviewed` grows by n,
   * `correctCount` by k, `lastReviewed` is the last request's time, and
   * nothing else in the store changes.
   */
  lemma {:induction false} ReviewAllCounts(s: Store, id: Id, i: nat, calls: seq<ReviewCall>)
    requires s.flashcards.Some? && FirstWithId(s.flashcards.value, id, i)
    ensures var cards := s.flashcards.value;
      var after := ReviewAll(s, id, calls);
      && after.subjects == s.subjects && after.progress == s.progress
      && after.flashcards.Some? && |after.flashcards.value| == |cards|
      && FirstWithId(after.flashcards.value, id, i)
      && after.flashcards.value[i].timesReviewed == cards[i].timesReviewed + |calls|
      && after.flashcards.value[i].correctCount == cards[i].correctCount + Seqs.CountWhere(calls, IsCorrect)
      && (|calls| > 0 ==> after.flashcards.value[i].lastReviewed == Some(calls[|calls| - 1].at))
      && (|calls| == 0 ==> after.flashcards.value[i].lastReviewed == cards[i].lastReviewed)
      && SameExceptReviewStats(after.flashcards.value[i], cards[i])
      && (forall j :: 0 <= j < |cards| && j != i ==> after.flashcards.value[j] == cards[j])
    decreases |calls|
  {
    var cards := s.flashcards.value;
    if |calls| == 0 {
      assert ReviewAll(s, id, calls) == s;
    } else {
      assert HasId(cards, id) by {
        assert CardId(cards[i]) == id;
      }
      var r := ReviewFlashcard(s, id, calls[0].correct, calls[0].at, true);
      assert r.Success?;
      var card1 := r.value.body;
      assert IsReviewedFlashcard(cards[i], card1, calls[0].correct, calls[0].at);
      var cards1 := cards[i := card1];
      var s1 := s.(flashcards := Some(cards1));
      assert r.value.store == s1;
      assert FirstWithId(cards1, id, i);
      ReviewAllCounts(s1, id, i, calls[1..]);
      assert ReviewAll(s, id, calls) == ReviewAll(s1, id, calls[1..]);
      if |calls| > 1 {
        assert calls[1..][|calls[1..]| - 1] == calls[|calls| - 1];
      }
    }
  }

  // ---------------------------------------------------------------- progress

  /** Two successive progress updates amount to one update with the second overriding the first. */
  lemma MergesCompose(s: Store, u1: Progress, u2: Progress)
    ensures var s1 := UpdateProgress(s, u1, true).value.store;
      UpdateProgress(s1, u2, true).value.body == UpdateProgress(s, u1 + u2, true).value.body
  {
    var base := s.progress.GetOr(DefaultProgress());
    assert base + u1 + u2 == base + (u1 + u2);
  }

  /**
   * A successful progress update is what the next GET returns: the stored
   * record, or the default one, merged with the update.
   */
  lemma UpdateThenGetProgress(s: Store, u: Progress)
    ensures UpdateProgress(s, u, true).Success?
    ensures var s1 := UpdateProgress(s, u, true).value.store;
      GetProgress(s1) == Success(s.progress.GetOr(DefaultProgress()) + u)
  { }

  /** Applying the same progress update twice is the same as applying it once. */
  lemma MergeIdempotent(s: Store, u: Progress)
    ensures var s1 := UpdateProgress(s, u, true).value.store;
      UpdateProgress(s1, u, true) == UpdateProgress(s, u, true)
  {
    var base := s.progress.GetOr(DefaultProgress());
    assert base + u + u == base + u;
  }
}
