/** The confirm-and-save endpoint (src/app/api/qa/route.ts): a POST whose JSON
    body carries a question, an answer, a topic and an actor stores them as a
    `qa` entry and records a `qa_confirmed` event.

    The request body arrives already decoded: `None` stands for a body that is
    not valid JSON or is the JSON value `null` (reading a field of `null`
    throws, which the handler answers like a parse failure), and a field that is absent, not a string or empty is
    `None` or "" (all three are falsy in the source's check). Identifiers and
    clock readings are parameters. */
module QaRoute {
  import opened Wrappers
  import opened Types
  import opened Store
  import opened Put

  /** The fields of the request body the endpoint reads. */
  datatype QaBody = QaBody(
    question: Option<string>,
    answer: Option<string>,
    topic: Option<string>,
    actor: Option<string>)

  /** The HTTP reply: the saved entry (status 200), or an error message with its status. */
  datatype QaReply = Saved(entry: Entry) | Failure(status: nat, error: string)

  const MissingFields: string := "Missing required fields: question, answer, topic, actor"
  const ServerError: string := "Internal server error"

  /** All four fields are present and non-empty. */
  predicate Complete(body: QaBody) {
    Given(body.question) && Given(body.answer) && Given(body.topic) && Given(body.actor)
  }

  /** The reply a body is refused with, if it is refused: an unreadable or
      `null` body is a server error, a missing field a client error. */
  function Refusal(body: Option<QaBody>): (r: Option<QaReply>)
    ensures r.None? <==> body.Some? && Complete(body.value)
    ensures r == Some(Failure(500, ServerError)) <==> body.None?
    ensures r == Some(Failure(400, MissingFields)) <==> body.Some? && !Complete(body.value)
  {
    if body.None? then Some(Failure(500, ServerError))
    else if !Complete(body.value) then Some(Failure(400, MissingFields))
    else None
  }

  /** The `qa_confirmed` event: who confirmed which question, linked to the saved entry. */
  function ConfirmedEvent(question: string, topic: string, actor: string, entry: Entry,
                          id: string, timestamp: string): Event
  {
    Event(id, QaConfirmed, timestamp, actor, topic, Some(entry.id), Some(map["question" := Text(question)]))
  }

  /** `POST /api/qa`. A refused body leaves the store untouched; an accepted
      one adds the `qa` entry, its `entry_added` event and the
      `qa_confirmed` event, in that order. */
  method PostQa(db: SilbenklingDB, body: Option<QaBody>,
                entryId: string, createdAt: string, addedId: string, addedAt: string,
                confirmedId: string, confirmedAt: string)
    returns (reply: QaReply)
    requires db.Valid()
    modifies db
    ensures db.Valid()
    ensures Refusal(body).Some? ==> reply == Refusal(body).value && unchanged(db)
    ensures Refusal(body).None? ==>
      var b := body.value;
      var q, a, t, who := b.question.value, b.answer.value, b.topic.value, b.actor.value;
      && reply == Saved(NewEntry(QaRequest(q, a, t, who), entryId, createdAt))
      && db.entryRows == old(db.entryRows) + [EntryToRow(reply.entry)]
      && db.eventRows == old(db.eventRows)
           + [EventToRow(EntryAddedEvent(QaRequest(q, a, t, who), reply.entry, addedId, addedAt)),
              EventToRow(ConfirmedEvent(q, t, who, reply.entry, confirmedId, confirmedAt))]
      && db.Entries() == old(db.Entries()) + [reply.entry]
      && (forall reader :: reply.entry in db.GetEntriesByTopic(t, reader))
  {
    var refusal := Refusal(body);
    if refusal.Some? {
      return refusal.value;
    }
    var b := body.value;
    var q, a, t, who := b.question.value, b.answer.value, b.topic.value, b.actor.value;
    var entry := PutQA(db, q, a, t, who, entryId, createdAt, addedId, addedAt);
    ghost var stored := db.Entries();
    db.InsertEvent(ConfirmedEvent(q, t, who, entry, confirmedId, confirmedAt));
    forall reader ensures entry in db.GetEntriesByTopic(t, reader) {
      NewEntryVisibleToAll(stored[..|stored| - 1], QaRequest(q, a, t, who), entryId, createdAt, reader);
      assert stored == stored[..|stored| - 1] + [entry];
    }
    reply := Saved(entry);
  }
}
