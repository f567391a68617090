/** The records of the knowledge store: entries, events and the request and
    response shapes of the engine (src/types/index.ts). Field names follow
    Dafny's camelCase; `type` is a keyword, so an entry's type is `entryType`
    and an event's type is `eventType`. */
module Types {
  import opened Wrappers

  /** The closed set of entry types. `EventEntry` is the type named 'event'. */
  datatype EntryType = Doc | Qa | Fact | Task | Link | EventEntry

  const AllEntryTypes: set<EntryType> := {Doc, Qa, Fact, Task, Link, EventEntry}

  /** The name stored in the `type` column. */
  function EntryTypeName(t: EntryType): string {
    match t
    case Doc => "doc"
    case Qa => "qa"
    case Fact => "fact"
    case Task => "task"
    case Link => "link"
    case EventEntry => "event"
  }

  /** Reads a `type` column back: the entry type with that name, if any. */
  function EntryTypeFromName(s: string): (r: Option<EntryType>)
    ensures r.Some? ==> EntryTypeName(r.value) == s
    ensures r.None? ==> forall t :: EntryTypeName(t) != s
  {
    if s == "doc" then Some(Doc)
    else if s == "qa" then Some(Qa)
    else if s == "fact" then Some(Fact)
    else if s == "task" then Some(Task)
    else if s == "link" then Some(Link)
    else if s == "event" then Some(EventEntry)
    else None
  }

  /** Exactly six entry types, with six distinct names, each read back as itself. */
  lemma EntryTypesClosed()
    ensures forall t: EntryType :: t in AllEntryTypes
    ensures |AllEntryTypes| == 6
    ensures forall t, u :: EntryTypeName(t) == EntryTypeName(u) ==> t == u
    ensures forall t :: EntryTypeFromName(EntryTypeName(t)) == Some(t)
  {
    forall t: EntryType ensures t in AllEntryTypes {
      match t
      case Doc => case Qa => case Fact => case Task => case Link => case EventEntry =>
    }
  }

  /** The closed set of event types. */
  datatype EventType =
    | EntryAdded
    | EntryUpdated
    | QuestionAsked
    | QuestionAnswered
    | QuestionUnanswered
    | QaConfirmed
    | AccessDenied

  const AllEventTypes: set<EventType> :=
    {EntryAdded, EntryUpdated, QuestionAsked, QuestionAnswered, QuestionUnanswered, QaConfirmed, AccessDenied}

  /** The name stored in the `type` column. */
  function EventTypeName(t: EventType): string {
    match t
    case EntryAdded => "entry_added"
    case EntryUpdated => "entry_updated"
    case QuestionAsked => "question_asked"
    case QuestionAnswered => "question_answered"
    case QuestionUnanswered => "question_unanswered"
    case QaConfirmed => "qa_confirmed"
    case AccessDenied => "access_denied"
  }

  /** Reads a `type` column back: the event type with that name, if any. */
  function EventTypeFromName(s: string): (r: Option<EventType>)
    ensures r.Some? ==> EventTypeName(r.value) == s
    ensures r.None? ==> forall t :: EventTypeName(t) != s
  {
    if s == "entry_added" then Some(EntryAdded)
    else if s == "entry_updated" then Some(EntryUpdated)
    else if s == "question_asked" then Some(QuestionAsked)
    else if s == "question_answered" then Some(QuestionAnswered)
    else if s == "question_unanswered" then Some(QuestionUnanswered)
    else if s == "qa_confirmed" then Some(QaConfirmed)
    else if s == "access_denied" then Some(AccessDenied)
    else None
  }

  /** Exactly seven event types, with seven distinct names, each read back as itself. */
  lemma EventTypesClosed()
    ensures forall t: EventType :: t in AllEventTypes
    ensures |AllEventTypes| == 7
    ensures forall t, u :: EventTypeName(t) == EventTypeName(u) ==> t == u
    ensures forall t :: EventTypeFromName(EventTypeName(t)) == Some(t)
  {
    forall t: EventType ensures t in AllEventTypes {
      match t
      case EntryAdded => case EntryUpdated => case QuestionAsked => case QuestionAnswered =>
      case QuestionUnanswered => case QaConfirmed => case AccessDenied =>
    }
  }

  /** `metadata`: tags, creation time and author are always there; `context` is optional. */
  datatype Metadata = Metadata(
    tags: seq<string>,
    createdAt: string,
    createdBy: string,
    context: Option<map<string, string>>)

  /** Two separate actor lists; an empty `read` list means readable by everyone. */
  datatype Permissions = Permissions(read: seq<string>, write: seq<string>)

  datatype Entry = Entry(
    id: string,
    topic: string,
    entryType: EntryType,
    content: string,
    metadata: Metadata,
    permissions: Permissions,
    version: int)

  /** The values an event payload holds in this core: strings, numbers and string lists. */
  datatype PayloadValue = Text(text: string) | Number(number: int) | TextList(items: seq<string>)

  type Payload = map<string, PayloadValue>

  /** An event: `entryId` and `payload` are optional, everything else is mandatory. */
  datatype Event = Event(
    id: string,
    eventType: EventType,
    timestamp: string,
    actor: string,
    topic: string,
    entryId: Option<string>,
    payload: Option<Payload>)

  datatype PutRequest = PutRequest(
    topic: string,
    entryType: EntryType,
    content: string,
    tags: Option<seq<string>>,
    context: Option<map<string, string>>,
    actor: string)

  datatype GetRequest = GetRequest(question: string, topic: string, actor: string)

  /** One cited entry of an answer. */
  datatype Source = Source(entryId: string, topic: string, entryType: EntryType, excerpt: string)

  /** An answer always has its sources (possibly none); `followups` is optional. */
  datatype GetResponse = GetResponse(answer: string, sources: seq<Source>, followups: Option<seq<string>>)

  datatype MonitorRequest = MonitorRequest(
    topic: Option<string>,
    eventTypes: Option<seq<EventType>>,
    from: Option<string>,
    to: Option<string>,
    actor: string)

  /** `byType` maps every event type, including those that never occur, to a count. */
  datatype Summary = Summary(total: nat, byType: map<EventType, nat>)

  datatype MonitorResponse = MonitorResponse(events: seq<Event>, summary: Summary)
}
