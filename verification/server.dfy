/**
 * The record service of the backend: three JSON documents (flashcards,
 * subjects, progress), each handler reading the whole document, changing it
 * in memory and writing it back. The files are an abstract `Store` in which
 * an unreadable document is `None`; whether the write-back succeeds is the
 * `writeOk` parameter. A failed write is assumed to leave the stored value
 * as it was; a write that truncates the file and then fails is not modelled.
 * Identifiers and timestamps come from the caller.
 */
module Server {
  import opened Wrappers
  import Seqs

  type Id = string
  type Timestamp = string

  /** A JSON value, as stored in the progress document and sent in its update bodies. */
  datatype Json =
    | JNull
    | JBool(b: bool)
    | JNum(n: int)
    | JStr(s: string)
    | JArr(items: seq<Json>)
    | JObj(fields: map<string, Json>)

  /**
   * A flashcard record. The text fields are optional because an update copies
   * whatever the request carried, absent fields included.
   */
  datatype Flashcard = Flashcard(
    id: Id,
    question: Option<string>,
    answer: Option<string>,
    subject: Option<string>,
    difficulty: Option<string>,
    tags: Option<seq<string>>,
    created: Timestamp,
    updated: Option<Timestamp>,
    timesReviewed: nat,
    correctCount: nat,
    lastReviewed: Option<Timestamp>)

  datatype Subject = Subject(
    id: Id,
    name: string,
    icon: string,
    color: string,
    created: Timestamp,
    flashcardCount: int)

  /** The single progress record, a JSON object. */
  type Progress = map<string, Json>

  /** The three documents; `None` is a document that cannot be read or parsed. */
  datatype Store = Store(
    flashcards: Option<seq<Flashcard>>,
    subjects: Option<seq<Subject>>,
    progress: Option<Progress>)

  datatype ApiError =
    | BadRequest(message: string)
    | NotFound(message: string)
    | StoreFailure(message: string)

  /** The HTTP status each kind of error is answered with. */
  function StatusCode(e: ApiError): nat {
    match e
    case BadRequest(_) => 400
    case NotFound(_) => 404
    case StoreFailure(_) => 500
  }

  /** A successful handler's new store and response body. */
  datatype Reply<T> = Reply(store: Store, body: T)

  /** The body fields of a flashcard create or update request; `None` is an absent field. */
  datatype FlashcardRequest = FlashcardRequest(
    question: Option<string>,
    answer: Option<string>,
    subject: Option<string>,
    difficulty: Option<string>,
    tags: Option<seq<string>>)

  datatype SubjectRequest = SubjectRequest(name: Option<string>, icon: Option<string>, color: Option<string>)

  /** JavaScript truthiness of an optional string: present and nonempty. */
  predicate Truthy(v: Option<string>) {
    v.Some? && v.value != ""
  }

  /** `v || default` for an optional string. */
  function OrElse(v: Option<string>, default: string): string {
    if Truthy(v) then v.value else default
  }

  // ---------------------------------------------------------------- lookups

  function CardId(c: Flashcard): Id {
    c.id
  }

  predicate HasId(cards: seq<Flashcard>, id: Id) {
    Seqs.HasKey(cards, CardId, id)
  }

  /** `i` is the index `findIndex(card => card.id === id)` reports. */
  predicate FirstWithId(cards: seq<Flashcard>, id: Id, i: int) {
    && 0 <= i < |cards|
    && cards[i].id == id
    && forall j :: 0 <= j < i ==> cards[j].id != id
  }

  predicate UniqueIds(cards: seq<Flashcard>) {
    Seqs.UniqueKeys(cards, CardId)
  }

  /** `cards.findIndex(card => card.id === id)`, with `None` for -1. */
  function FindIndex(cards: seq<Flashcard>, id: Id): (r: Option<nat>)
    ensures r.None? <==> !HasId(cards, id)
    ensures r.Some? ==> FirstWithId(cards, id, r.value)
    decreases |cards|
  {
    if |cards| == 0 then None
    else if cards[0].id == id then Some(0)
    else match FindIndex(cards[1..], id)
      case None => None
      case Some(i) => Some(i + 1)
  }

  /** `cards.filter(card => card.id !== id)`. */
  function Without(cards: seq<Flashcard>, id: Id): seq<Flashcard> {
    Seqs.Reject(cards, CardId, id)
  }

  // ---------------------------------------------------------------- flashcards

  /** GET /api/flashcards: the stored list, or a server error when it cannot be read. */
  function ListFlashcards(s: Store): (r: Result<seq<Flashcard>, ApiError>)
    ensures r.Success? <==> s.flashcards.Some?
    ensures r.Success? ==> r.value == s.flashcards.value
    ensures r.Failure? ==> StatusCode(r.error) == 500
  {
    match s.flashcards
    case None => Failure(StoreFailure("Failed to read flashcards"))
    case Some(cards) => Success(cards)
  }

  predicate ValidFlashcardRequest(req: FlashcardRequest) {
    Truthy(req.question) && Truthy(req.answer) && Truthy(req.subject)
  }

  /** The record a successful create appends: request fields plus the documented defaults. */
  predicate IsNewFlashcard(card: Flashcard, req: FlashcardRequest, id: Id, now: Timestamp) {
    && card.id == id
    && card.question == req.question && card.answer == req.answer && card.subject == req.subject
    && card.difficulty == Some(OrElse(req.difficulty, "medium"))
    && card.tags == Some(req.tags.GetOr([]))
    && card.created == now && card.updated == None
    && card.timesReviewed == 0 && card.correctCount == 0
    && card.lastReviewed == None
  }

  /**
   * POST /api/flashcards. An unreadable document counts as an empty list, so
   * a create over it writes a one-element list.
   */
  function CreateFlashcard(s: Store, req: FlashcardRequest, id: Id, now: Timestamp, writeOk: bool)
    : (r: Result<Reply<Flashcard>, ApiError>)
    ensures !ValidFlashcardRequest(req) ==> r == Failure(BadRequest("Missing required fields"))
    ensures r.Success? <==> ValidFlashcardRequest(req) && writeOk
    ensures r.Failure? && ValidFlashcardRequest(req) ==> StatusCode(r.error) == 500
    ensures r.Success? ==>
      && IsNewFlashcard(r.value.body, req, id, now)
      && r.value.store == s.(flashcards := Some(s.flashcards.GetOr([]) + [r.value.body]))
  {
    if !ValidFlashcardRequest(req) then Failure(BadRequest("Missing required fields"))
    else
      var cards := s.flashcards.GetOr([]);
      var card := Flashcard(id, req.question, req.answer, req.subject,
        Some(OrElse(req.difficulty, "medium")), Some(req.tags.GetOr([])),
        now, None, 0, 0, None);
      if !writeOk then Failure(StoreFailure("Failed to save flashcard"))
      else Success(Reply(s.(flashcards := Some(cards + [card])), card))
  }

  /** What an update keeps from the old record and what it takes from the request. */
  predicate IsUpdatedFlashcard(before: Flashcard, after: Flashcard, req: FlashcardRequest, now: Timestamp) {
    && after.id == before.id && after.created == before.created
    && after.timesReviewed == before.timesReviewed && after.correctCount == before.correctCount
    && after.lastReviewed == before.lastReviewed
    && after.question == req.question && after.answer == req.answer && after.subject == req.subject
    && after.difficulty == req.difficulty && after.tags == req.tags
    && after.updated == Some(now)
  }

  /**
   * PUT /api/flashcards/:id. The five request fields replace the stored ones
   * even when absent from the request; only the first record with the id changes.
   */
  function UpdateFlashcard(s: Store, id: Id, req: FlashcardRequest, now: Timestamp, writeOk: bool)
    : (r: Result<Reply<Flashcard>, ApiError>)
    ensures !HasId(s.flashcards.GetOr([]), id) ==> r == Failure(NotFound("Flashcard not found"))
    ensures r.Success? <==> HasId(s.flashcards.GetOr([]), id) && writeOk
    ensures r.Failure? && HasId(s.flashcards.GetOr([]), id) ==> StatusCode(r.error) == 500
    ensures r.Success? ==> forall i :: FirstWithId(s.flashcards.GetOr([]), id, i) ==>
      && IsUpdatedFlashcard(s.flashcards.GetOr([])[i], r.value.body, req, now)
      && r.value.store == s.(flashcards := Some(s.flashcards.GetOr([])[i := r.value.body]))
  {
    var cards := s.flashcards.GetOr([]);
    match FindIndex(cards, id)
    case None => Failure(NotFound("Flashcard not found"))
    case Some(i) =>
      var card := cards[i].(question := req.question, answer := req.answer, subject := req.subject,
        difficulty := req.difficulty, tags := req.tags, updated := Some(now));
      if !writeOk then Failure(StoreFailure("Failed to update flashcard"))
      else Success(Reply(s.(flashcards := Some(cards[i := card])), card))
  }

  /**
   * DELETE /api/flashcards/:id. Every record with the id goes; "not found" is
   * detected by the length not changing, and then nothing is written.
   */
  function DeleteFlashcard(s: Store, id: Id, writeOk: bool): (r: Result<Reply<string>, ApiError>)
    ensures !HasId(s.flashcards.GetOr([]), id) ==> r == Failure(NotFound("Flashcard not found"))
    ensures r.Success? <==> HasId(s.flashcards.GetOr([]), id) && writeOk
    ensures r.Failure? && HasId(s.flashcards.GetOr([]), id) ==> StatusCode(r.error) == 500
    ensures r.Success? ==>
      && r.value.store == s.(flashcards := Some(Without(s.flashcards.GetOr([]), id)))
      && |r.value.store.flashcards.value| < |s.flashcards.GetOr([])|
      && !HasId(r.value.store.flashcards.value, id)
  {
    var cards := s.flashcards.GetOr([]);
    var kept := Without(cards, id);
    if |kept| == |cards| then Failure(NotFound("Flashcard not found"))
    else if !writeOk then Failure(StoreFailure("Failed to delete flashcard"))
    else Success(Reply(s.(flashcards := Some(kept)), "Flashcard deleted successfully"))
  }

  /** What one review changes on a record: the two counters and the review stamp, nothing else. */
  predicate IsReviewedFlashcard(before: Flashcard, after: Flashcard, correct: bool, now: Timestamp) {
    after == before.(timesReviewed := before.timesReviewed + 1,
                     correctCount := before.correctCount + (if correct then 1 else 0),
                     lastReviewed := Some(now))
  }

  /** POST /api/flashcards/:id/review, where `correct` is the truthiness of the request's flag. */
  function ReviewFlashcard(s: Store, id: Id, correct: bool, now: Timestamp, writeOk: bool)
    : (r: Result<Reply<Flashcard>, ApiError>)
    ensures !HasId(s.flashcards.GetOr([]), id) ==> r == Failure(NotFound("Flashcard not found"))
    ensures r.Success? <==> HasId(s.flashcards.GetOr([]), id) && writeOk
    ensures r.Failure? && HasId(s.flashcards.GetOr([]), id) ==> StatusCode(r.error) == 500
    ensures r.Success? ==> forall i :: FirstWithId(s.flashcards.GetOr([]), id, i) ==>
      && IsReviewedFlashcard(s.flashcards.GetOr([])[i], r.value.body, correct, now)
      && r.value.store == s.(flashcards := Some(s.flashcards.GetOr([])[i := r.value.body]))
  {
    var cards := s.flashcards.GetOr([]);
    match FindIndex(cards, id)
    case None => Failure(NotFound("Flashcard not found"))
    case Some(i) =>
      var card := cards[i].(timesReviewed := cards[i].timesReviewed + 1,
        correctCount := cards[i].correctCount + (if correct then 1 else 0),
        lastReviewed := Some(now));
      if !writeOk then Failure(StoreFailure("Failed to update review stats"))
      else Success(Reply(s.(flashcards := Some(cards[i := card])), card))
  }

  // ---------------------------------------------------------------- subjects

  /** GET /api/subjects. */
  function ListSubjects(s: Store): (r: Result<seq<Subject>, ApiError>)
    ensures r.Success? <==> s.subjects.Some?
    ensures r.Success? ==> r.value == s.subjects.value
    ensures r.Failure? ==> StatusCode(r.error) == 500
  {
    match s.subjects
    case None => Failure(StoreFailure("Failed to read subjects"))
    case Some(subjects) => Success(subjects)
  }

  /** POST /api/subjects: a name is required; icon and colour have defaults; the count starts at 0. */
  function CreateSubject(s: Store, req: SubjectRequest, id: Id, now: Timestamp, writeOk: bool)
    : (r: Result<Reply<Subject>, ApiError>)
    ensures !Truthy(req.name) ==> r == Failure(BadRequest("Subject name is required"))
    ensures r.Success? <==> Truthy(req.name) && writeOk
    ensures r.Failure? && Truthy(req.name) ==> StatusCode(r.error) == 500
    ensures r.Success? ==>
      && r.value.body == Subject(id, req.name.value, OrElse(req.icon, "BookOpen"),
                                 OrElse(req.color, "bg-blue-500"), now, 0)
      && r.value.store == s.(subjects := Some(s.subjects.GetOr([]) + [r.value.body]))
  {
    if !Truthy(req.name) then Failure(BadRequest("Subject name is required"))
    else
      var subjects := s.subjects.GetOr([]);
      var subject := Subject(id, req.name.value, OrElse(req.icon, "BookOpen"),
        OrElse(req.color, "bg-blue-500"), now, 0);
      if !writeOk then Failure(StoreFailure("Failed to save subject"))
      else Success(Reply(s.(subjects := Some(subjects + [subject])), subject))
  }

  // ---------------------------------------------------------------- progress

  /** The record a progress update merges onto when none can be read. */
  function DefaultProgress(): Progress {
    map[
      "totalXP" := JNum(0),
      "level" := JNum(1),
      "streak" := JNum(0),
      "lastActivity" := JNull,
      "completedSkills" := JArr([]),
      "achievements" := JArr([])
    ]
  }

  /** GET /api/progress. */
  function GetProgress(s: Store): (r: Result<Progress, ApiError>)
    ensures r.Success? <==> s.progress.Some?
    ensures r.Success? ==> r.value == s.progress.value
    ensures r.Failure? ==> StatusCode(r.error) == 500
  {
    match s.progress
    case None => Failure(StoreFailure("Failed to read progress"))
    case Some(p) => Success(p)
  }

  /** `{ ...base, ...updates }`: every key of the update wins, every other key keeps its value. */
  predicate IsShallowMerge(base: Progress, updates: Progress, merged: Progress) {
    && merged.Keys == base.Keys + updates.Keys
    && (forall k :: k in updates ==> merged[k] == updates[k])
    && (forall k :: k in base && k !in updates ==> merged[k] == base[k])
  }

  /** PUT /api/progress: a shallow merge over the stored record, or over the default one. */
  function UpdateProgress(s: Store, updates: Progress, writeOk: bool): (r: Result<Reply<Progress>, ApiError>)
    ensures r.Success? <==> writeOk
    ensures r.Failure? ==> StatusCode(r.error) == 500
    ensures r.Success? ==>
      && IsShallowMerge(s.progress.GetOr(DefaultProgress()), updates, r.value.body)
      && r.value.store == s.(progress := Some(r.value.body))
  {
    var current := s.progress.GetOr(DefaultProgress());
    var merged := current + updates;
    if !writeOk then Failure(StoreFailure("Failed to update progress"))
    else Success(Reply(s.(progress := Some(merged)), merged))
  }
}
