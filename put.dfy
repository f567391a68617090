/** Storing knowledge (src/engine/put.ts): `putEntry` builds a new entry,
    stores it and records an `entry_added` event; `putQA` stores a confirmed
    question and answer as a `qa` entry.

    The identifiers (`nanoid()`) and the two clock readings (`new
    Date().toISOString()`, once for the entry and once for the event) are
    parameters. */
module Put {
  import opened Wrappers
  import opened Text
  import opened Types
  import opened Store

  /** The entry `putEntry` creates: version 1, open permissions, no tags when none are given. */
  function NewEntry(request: PutRequest, id: string, createdAt: string): Entry {
    Entry(
      id, request.topic, request.entryType, request.content,
      Metadata(request.tags.GetOr([]), createdAt, request.actor, request.context),
      Permissions([], []),
      1)
  }

  /** The event that records the new entry, with its type and tags as payload. */
  function EntryAddedEvent(request: PutRequest, entry: Entry, id: string, timestamp: string): Event {
    Event(
      id, EntryAdded, timestamp, request.actor, request.topic, Some(entry.id),
      Some(map["entry_type" := Text(EntryTypeName(entry.entryType)), "tags" := TextList(entry.metadata.tags)]))
  }

  /** A new entry is readable by every actor (its read list is empty), is
      found under its own topic, and is stored with the requested fields. */
  lemma NewEntryVisibleToAll(entries: seq<Entry>, request: PutRequest, id: string, createdAt: string, actor: string)
    ensures var e := NewEntry(request, id, createdAt);
      && e in TopicEntries(entries + [e], request.topic, actor)
      && e.topic == request.topic && e.entryType == request.entryType && e.content == request.content
      && e.metadata.createdBy == request.actor
      && (request.tags.Some? ==> e.metadata.tags == request.tags.value)
      && (request.tags.None? ==> e.metadata.tags == [])
  {
    var e := NewEntry(request, id, createdAt);
    assert e in entries + [e];
    assert e.topic == request.topic + "";
    TopicEntriesComplete(entries + [e], request.topic, "", actor, e);
  }

  /** `putEntry`: one entry row, then one `entry_added` event row. */
  method PutEntry(db: SilbenklingDB, request: PutRequest,
                  entryId: string, createdAt: string, eventId: string, eventAt: string)
    returns (entry: Entry)
    requires db.Valid()
    modifies db
    ensures db.Valid()
    ensures entry == NewEntry(request, entryId, createdAt)
    ensures db.entryRows == old(db.entryRows) + [EntryToRow(entry)]
    ensures db.eventRows == old(db.eventRows) + [EventToRow(EntryAddedEvent(request, entry, eventId, eventAt))]
    ensures db.Entries() == old(db.Entries()) + [entry]
    ensures entryId != "" ==> db.Events() == old(db.Events()) + [EntryAddedEvent(request, entry, eventId, eventAt)]
  {
    entry := NewEntry(request, entryId, createdAt);
    db.InsertEntry(entry);
    db.InsertEvent(EntryAddedEvent(request, entry, eventId, eventAt));
  }

  /** The content of a stored question and answer. */
  function QaContent(question: string, answer: string): string {
    "Q: " + question + "\n\nA: " + answer
  }

  const AnswerSeparator: string := "\n\nA: "

  /** The request `putQA` makes: a `qa` entry tagged `qa`. */
  function QaRequest(question: string, answer: string, topic: string, actor: string): PutRequest {
    PutRequest(topic, Qa, QaContent(question, answer), Some(["qa"]), None, actor)
  }

  /** A stored QA content splits back into its question and answer at the
      first answer separator, provided the question holds none. */
  lemma QaContentSplits(question: string, answer: string)
    requires !Infix(AnswerSeparator, question)
    ensures var c := QaContent(question, answer);
      && IndexOf(c, AnswerSeparator) == Some(3 + |question|)
      && c[3..3 + |question|] == question
      && c[3 + |question| + |AnswerSeparator|..] == answer
  {
    var c := QaContent(question, answer);
    var n := |question|;
    var lo: nat, hi: nat := 3, 3 + n;
    assert c == "Q: " + question + AnswerSeparator + answer;
    assert c[3..3 + n] == question;
    assert c[3 + n..8 + n] == AnswerSeparator;
    assert c[8 + n..] == answer;
    forall j | 0 <= j < 3 + n ensures !OccursAt(c, AnswerSeparator, j) {
      if OccursAt(c, AnswerSeparator, j) {
        if j < 3 {
          CoveredChar(c, AnswerSeparator, j, j);
          assert false;
        } else if j + 5 <= 3 + n {
          OccursInsideSlice(c, AnswerSeparator, lo, hi, j);
          assert false;
        } else {
          CoveredChar(c, AnswerSeparator, j, 3 + n);
          CoveredChar(c, AnswerSeparator, j, 4 + n);
          assert false;
        }
      }
    }
    FirstOccurrenceAt(c, AnswerSeparator, 0, 3 + n);
  }

  /** `putQA`: `putEntry` with the QA request. */
  method PutQA(db: SilbenklingDB, question: string, answer: string, topic: string, actor: string,
               entryId: string, createdAt: string, eventId: string, eventAt: string)
    returns (entry: Entry)
    requires db.Valid()
    modifies db
    ensures db.Valid()
    ensures entry == NewEntry(QaRequest(question, answer, topic, actor), entryId, createdAt)
    ensures entry.entryType == Qa && entry.metadata.tags == ["qa"] && entry.content == QaContent(question, answer)
    ensures db.entryRows == old(db.entryRows) + [EntryToRow(entry)]
    ensures db.eventRows == old(db.eventRows)
              + [EventToRow(EntryAddedEvent(QaRequest(question, answer, topic, actor), entry, eventId, eventAt))]
    ensures db.Entries() == old(db.Entries()) + [entry]
  {
    entry := PutEntry(db, QaRequest(question, answer, topic, actor), entryId, createdAt, eventId, eventAt);
  }
}
