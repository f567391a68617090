/** Answering a question (src/engine/get.ts): record the question, retrieve
    every entry under the topic that the actor may read, and either say that
    nothing was found or let the configured provider answer, citing the
    retrieved entries as sources. Each outcome is recorded as an event.

    Identifiers and clock readings are parameters, as are the environment
    the provider is chosen from and the remote HTTP call. */
module Get {
  import opened Wrappers
  import opened Text
  import opened Types
  import opened Store
  import opened Llm

  /** The answer when no entry was retrieved. */
  const NoMatchAnswer: string :=
    "Ich habe keine passenden Einträge zu dieser Frage gefunden. Möchtest du Wissen hinzufügen?"

  const SourceExcerptLength: nat := 150

  function QuestionPayload(question: string): Payload {
    map["question" := Text(question)]
  }

  function AskedEvent(request: GetRequest, id: string, timestamp: string): Event {
    Event(id, QuestionAsked, timestamp, request.actor, request.topic, None, Some(QuestionPayload(request.question)))
  }

  function UnansweredEvent(request: GetRequest, id: string, timestamp: string): Event {
    Event(id, QuestionUnanswered, timestamp, request.actor, request.topic, None, Some(QuestionPayload(request.question)))
  }

  /** The `question_answered` event, carrying how many entries were cited. */
  function AnsweredEvent(request: GetRequest, id: string, timestamp: string, count: nat): Event {
    Event(id, QuestionAnswered, timestamp, request.actor, request.topic, None,
          Some(QuestionPayload(request.question)["sources_count" := Number(count)]))
  }

  /** A retrieved entry cited as a source: its identity and the first 150 characters. */
  function SourceOf(e: Entry): Source {
    Source(e.id, e.topic, e.entryType, Excerpt(e.content, SourceExcerptLength))
  }

  function Sources(entries: seq<Entry>): seq<Source> {
    seq(|entries|, i requires 0 <= i < |entries| => SourceOf(entries[i]))
  }

  /** The sources are the retrieved entries in retrieval order, each with a
      bounded excerpt that begins the entry's content. */
  lemma SourcesCiteEntries(entries: seq<Entry>)
    ensures |Sources(entries)| == |entries|
    ensures forall i :: 0 <= i < |entries| ==>
      var s, e := Sources(entries)[i], entries[i];
      && s.entryId == e.id && s.topic == e.topic && s.entryType == e.entryType
      && |s.excerpt| <= SourceExcerptLength + 3
      && s.excerpt[..Min(SourceExcerptLength, |e.content|)] == e.content[..Min(SourceExcerptLength, |e.content|)]
      && (|e.content| <= SourceExcerptLength ==> s.excerpt == e.content)
      && (|e.content| > SourceExcerptLength ==> s.excerpt[SourceExcerptLength..] == "...")
  {
  }

  /** What `getAnswer` returns for the entries it retrieved. */
  function Answer(request: GetRequest, retrieved: seq<Entry>, env: ProviderEnv,
                  remote: (Provider, string) -> Reply): Result<GetResponse, string>
  {
    if retrieved == [] then Ok(GetResponse(NoMatchAnswer, [], None))
    else
      match SelectProvider(env)
      case Err(e) => Err(e)
      case Ok(p) =>
        match ProviderAnswer(p, request.question, retrieved, remote)
        case Err(e) => Err(e)
        case Ok(response) => Ok(GetResponse(response.answer, Sources(retrieved), response.followups))
  }

  /** With nothing retrieved the answer is the fixed message, whatever the
      provider configuration (no provider is even selected). */
  lemma NothingRetrievedNeedsNoProvider(request: GetRequest, env: ProviderEnv, remote: (Provider, string) -> Reply)
    ensures Answer(request, [], env, remote) == Ok(GetResponse(NoMatchAnswer, [], None))
  {
  }

  /** A failure comes only from the provider: a bad configuration or a failed
      remote request. A successful answer cites exactly the retrieved entries. */
  lemma AnswerOutcomes(request: GetRequest, retrieved: seq<Entry>, env: ProviderEnv,
                       remote: (Provider, string) -> Reply)
    ensures var r := Answer(request, retrieved, env, remote);
      && (r.Err? <==>
            && retrieved != []
            && (|| SelectProvider(env).Err?
                || (&& !SelectProvider(env).value.Mock?
                    && remote(SelectProvider(env).value, Prompt(request.question, Context(retrieved))).HttpFailure?)))
      && (r.Ok? ==> |r.value.sources| == |retrieved|)
      && (r.Ok? && retrieved != [] ==> r.value.sources == Sources(retrieved))
  {
  }

  /** With the mock provider configured, every question gets an answer. */
  lemma MockNeverFails(request: GetRequest, retrieved: seq<Entry>, env: ProviderEnv,
                       remote: (Provider, string) -> Reply)
    requires Setting(env.llmProvider) == "" || Setting(env.llmProvider) == "mock"
    ensures Answer(request, retrieved, env, remote).Ok?
  {
  }

  /** The events `getAnswer` records: the question, then its outcome unless
      the provider failed. */
  function RecordedEvents(request: GetRequest, retrieved: seq<Entry>, answered: bool,
                          askedId: string, askedAt: string, outcomeId: string, outcomeAt: string): seq<Event>
  {
    [AskedEvent(request, askedId, askedAt)]
      + (if retrieved == [] then [UnansweredEvent(request, outcomeId, outcomeAt)]
         else if answered then [AnsweredEvent(request, outcomeId, outcomeAt, |retrieved|)]
         else [])
  }

  /** The provider's part of `getAnswer`, once entries were retrieved: choose
      the provider, let it answer, and cite the entries as sources. */
  method Respond(request: GetRequest, entries: seq<Entry>, env: ProviderEnv, remote: (Provider, string) -> Reply)
    returns (r: Result<GetResponse, string>)
    requires entries != []
    ensures r == Answer(request, entries, env, remote)
  {
    var provider := SelectProvider(env);
    if provider.Err? {
      return Err(provider.error);
    }
    var response := GenerateAnswer(provider.value, request.question, entries, remote);
    if response.Err? {
      return Err(response.error);
    }
    r := Ok(GetResponse(response.value.answer, Sources(entries), response.value.followups));
  }

  /** The first half of `getAnswer`: record the question, then retrieve. */
  method AskAndRetrieve(db: SilbenklingDB, request: GetRequest, askedId: string, askedAt: string)
    returns (entries: seq<Entry>)
    requires db.Valid()
    modifies db
    ensures db.Valid()
    ensures db.entryRows == old(db.entryRows)
    ensures entries == old(db.GetEntriesByTopic(request.topic, request.actor))
    ensures db.Events() == old(db.Events()) + [AskedEvent(request, askedId, askedAt)]
  {
    db.InsertEvent(AskedEvent(request, askedId, askedAt));
    entries := db.GetEntriesByTopic(request.topic, request.actor);
  }

  /** Records the outcome right after the question. */
  method RecordOutcome(db: SilbenklingDB, ghost before: seq<Event>, asked: Event, outcome: Event)
    requires db.Valid() && db.Events() == before + [asked]
    requires outcome.entryId.None?
    modifies db
    ensures db.Valid()
    ensures db.entryRows == old(db.entryRows)
    ensures db.Events() == before + [asked, outcome]
  {
    db.InsertEvent(outcome);
    AppendTwo(before, asked, outcome);
  }

  /** `getAnswer`. */
  method GetAnswer(db: SilbenklingDB, request: GetRequest, env: ProviderEnv, remote: (Provider, string) -> Reply,
                   askedId: string, askedAt: string, outcomeId: string, outcomeAt: string)
    returns (r: Result<GetResponse, string>)
    requires db.Valid()
    modifies db
    ensures db.Valid()
    ensures db.entryRows == old(db.entryRows)
    ensures r == Answer(request, old(db.GetEntriesByTopic(request.topic, request.actor)), env, remote)
    ensures db.Events() == old(db.Events()) + RecordedEvents(request, old(db.GetEntriesByTopic(request.topic, request.actor)),
                                                             r.Ok?, askedId, askedAt, outcomeId, outcomeAt)
  {
    ghost var before := db.Events();
    var entries := AskAndRetrieve(db, request, askedId, askedAt);
    var asked := AskedEvent(request, askedId, askedAt);
    if |entries| == 0 {
      RecordOutcome(db, before, asked, UnansweredEvent(request, outcomeId, outcomeAt));
      return Ok(GetResponse(NoMatchAnswer, [], None));
    }
    r := Respond(request, entries, env, remote);
    if r.Ok? {
      RecordOutcome(db, before, asked, AnsweredEvent(request, outcomeId, outcomeAt, |entries|));
    }
  }

  /** Two events appended one after the other are appended together. */
  lemma AppendTwo(log: seq<Event>, first: Event, second: Event)
    ensures log + [first] + [second] == log + [first, second]
  {
  }
}
