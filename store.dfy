/** The SQLite store (src/db/index.ts): two append-only tables, `entries` and
    `events`, the conversions between records and rows, and the three read
    queries. The SQL text is only the encoding; each query is stated here as
    filter, sort and limit over the decoded rows. */
module Store {
  import opened Wrappers
  import opened Types
  import opened Text
  import opened SqlLike
  import opened Order
  import Json

  /** A row of `entries`. The `type` column holds the type's name; the JSON
      text columns (tags, context, permissions) are kept as the values they
      encode. A NULL `context` is `None`. */
  datatype EntryRow = EntryRow(
    id: string,
    topic: string,
    typeColumn: string,
    content: string,
    tags: seq<string>,
    context: Option<map<string, string>>,
    createdAt: string,
    createdBy: string,
    readPermissions: seq<string>,
    writePermissions: seq<string>,
    version: int)

  /** A row of `events`; NULL columns are `None`. */
  datatype EventRow = EventRow(
    id: string,
    typeColumn: string,
    timestamp: string,
    actor: string,
    topic: string,
    entryId: Option<string>,
    payload: Option<Payload>)

  /** JavaScript's `s || null` on an optional string: the empty string is falsy
      and counts as absent. */
  function OrNull(o: Option<string>): (r: Option<string>)
    ensures r.Some? <==> o.Some? && o.value != ""
    ensures r.Some? ==> r == o
  {
    if o.Some? && o.value != "" then o else None
  }

  /** The values `insertEntry` binds to the INSERT statement. */
  function EntryToRow(e: Entry): EntryRow {
    EntryRow(
      e.id, e.topic, EntryTypeName(e.entryType), e.content,
      e.metadata.tags, e.metadata.context, e.metadata.createdAt, e.metadata.createdBy,
      e.permissions.read, e.permissions.write, e.version)
  }

  /** A row whose `type` column names an entry type. */
  predicate ValidEntryRow(row: EntryRow) {
    EntryTypeFromName(row.typeColumn).Some?
  }

  /** `rowToEntry`. */
  function RowToEntry(row: EntryRow): Entry
    requires ValidEntryRow(row)
  {
    Entry(
      row.id, row.topic, EntryTypeFromName(row.typeColumn).value, row.content,
      Metadata(row.tags, row.createdAt, row.createdBy, row.context),
      Permissions(row.readPermissions, row.writePermissions),
      row.version)
  }

  /** An inserted entry reads back unchanged: same tags in the same order, the
      same context, and an absent context stays absent. */
  lemma EntryRoundTrip(e: Entry)
    ensures ValidEntryRow(EntryToRow(e))
    ensures RowToEntry(EntryToRow(e)) == e
    ensures RowToEntry(EntryToRow(e)).metadata.tags == e.metadata.tags
    ensures RowToEntry(EntryToRow(e)).metadata.context == e.metadata.context
  {
    EntryTypesClosed();
  }

  /** The values `insertEvent` binds: `entry_id || null`, and the payload's
      JSON text (an object is always truthy, so a present payload is stored). */
  function EventToRow(ev: Event): EventRow {
    EventRow(ev.id, EventTypeName(ev.eventType), ev.timestamp, ev.actor, ev.topic, OrNull(ev.entryId), ev.payload)
  }

  /** A row whose `type` column names an event type. */
  predicate ValidEventRow(row: EventRow) {
    EventTypeFromName(row.typeColumn).Some?
  }

  /** `rowToEvent`: `entry_id || undefined`, and the parsed payload or `undefined`. */
  function RowToEvent(row: EventRow): Event
    requires ValidEventRow(row)
  {
    Event(row.id, EventTypeFromName(row.typeColumn).value, row.timestamp, row.actor, row.topic,
          OrNull(row.entryId), row.payload)
  }

  /** An inserted event reads back unchanged, except that an empty `entry_id`
      reads back as absent. Absent values stay absent. */
  lemma EventRoundTrip(ev: Event)
    ensures ValidEventRow(EventToRow(ev))
    ensures RowToEvent(EventToRow(ev)).entryId == OrNull(ev.entryId)
    ensures RowToEvent(EventToRow(ev)).payload == ev.payload
    ensures ev.entryId != Some("") <==> RowToEvent(EventToRow(ev)) == ev
  {
    EventTypesClosed();
  }

  /** The entries a list of rows decodes to. */
  function DecodeEntries(rows: seq<EntryRow>): (es: seq<Entry>)
    requires forall i :: 0 <= i < |rows| ==> ValidEntryRow(rows[i])
  {
    seq(|rows|, i requires 0 <= i < |rows| => RowToEntry(rows[i]))
  }

  /** The events a list of rows decodes to. */
  function DecodeEvents(rows: seq<EventRow>): (evs: seq<Event>)
    requires forall i :: 0 <= i < |rows| ==> ValidEventRow(rows[i])
  {
    seq(|rows|, i requires 0 <= i < |rows| => RowToEvent(rows[i]))
  }

  // ---------------------------------------------------------------------------
  // Entry queries

  /** The LIKE pattern for a topic: `%` is appended unless the topic already
      ends with one. */
  function TopicPattern(topic: string): (p: string)
    ensures |p| > 0 && p[|p| - 1] == '%'
    ensures p == topic || p == topic + "%"
    ensures |topic| > 0 && topic[|topic| - 1] == '%' ==> p == topic
  {
    if |topic| > 0 && topic[|topic| - 1] == '%' then topic else topic + "%"
  }

  /** `read_permissions = '[]' OR read_permissions LIKE '%"<actor>"%'`, taken
      as: the read list is empty or names the actor. */
  predicate ReadAllowed(e: Entry, actor: string) {
    e.permissions.read == [] || actor in e.permissions.read
  }

  /** The WHERE clause of `getEntriesByTopic`. */
  predicate InTopicFor(e: Entry, topic: string, actor: string) {
    Like(TopicPattern(topic), e.topic) && ReadAllowed(e, actor)
  }

  function CreatedAt(e: Entry): string { e.metadata.createdAt }

  /** The stored entries that satisfy `getEntriesByTopic`'s WHERE clause. */
  function TopicHits(entries: seq<Entry>, topic: string, actor: string): seq<Entry> {
    Filter(entries, e => InTopicFor(e, topic, actor))
  }

  /** `getEntriesByTopic`: every stored entry of the topic that the actor may
      read (as many times as stored) and nothing else, newest first, unbounded. */
  function TopicEntries(entries: seq<Entry>, topic: string, actor: string): seq<Entry> {
    SortDesc(TopicHits(entries, topic, actor), CreatedAt)
  }

  /** One entry at a time: returned exactly when stored, under the topic and readable. */
  lemma TopicEntriesMember(entries: seq<Entry>, topic: string, actor: string, e: Entry)
    ensures e in TopicEntries(entries, topic, actor) <==> e in entries && InTopicFor(e, topic, actor)
  {
    var hits := TopicHits(entries, topic, actor);
    var r := TopicEntries(entries, topic, actor);
    assert multiset(r) == multiset(hits);
    assert e in r <==> e in multiset(r);
    assert e in hits <==> e in multiset(hits);
  }

  lemma TopicEntriesSpec(entries: seq<Entry>, topic: string, actor: string)
    ensures var r := TopicEntries(entries, topic, actor);
      && SortedDesc(r, CreatedAt)
      && (forall e :: multiset(r)[e] == if InTopicFor(e, topic, actor) then multiset(entries)[e] else 0)
      && (forall e :: e in r <==> e in entries && InTopicFor(e, topic, actor))
  {
  }

  /** The `tags` column's JSON text as `JSON.stringify` writes a list of
      strings: each tag quoted and escaped, separated by commas, in brackets. */
  function TagsText(tags: seq<string>): string {
    "[" + Join(seq(|tags|, i requires 0 <= i < |tags| => Json.Quote(tags[i])), ",") + "]"
  }

  /** The tags' JSON text holds no raw control character. */
  lemma TagsTextHasNoControl(tags: seq<string>)
    ensures forall k :: 0 <= k < |TagsText(tags)| ==> TagsText(tags)[k] >= ' '
  {
    var qs := seq(|tags|, i requires 0 <= i < |tags| => Json.Quote(tags[i]));
    forall k | 0 <= k < |qs| ensures forall c :: c in qs[k] ==> c >= ' ' {
      Json.EscapeHasNoControl(tags[k]);
    }
    JoinCharsAtLeast(qs, ",", ' ');
    var text := TagsText(tags);
    forall k | 0 <= k < |text| ensures text[k] >= ' ' {
      assert text[k] in text;
    }
  }

  /** `content LIKE %<query>% OR tags LIKE %<query>%`. */
  predicate MatchesQuery(e: Entry, query: string) {
    Like("%" + query + "%", e.content) || Like("%" + query + "%", TagsText(e.metadata.tags))
  }

  /** The WHERE clause of `searchEntries`. */
  predicate SearchHit(e: Entry, topic: string, query: string, actor: string) {
    InTopicFor(e, topic, actor) && MatchesQuery(e, query)
  }

  function SearchHits(entries: seq<Entry>, topic: string, query: string, actor: string): seq<Entry> {
    Filter(entries, e => SearchHit(e, topic, query, actor))
  }

  const SearchLimit: nat := 10

  /** `searchEntries`: at most ten matching entries, newest first; all matches
      when there are no more than ten, and no match left out is newer than one
      returned. */
  function SearchResult(entries: seq<Entry>, topic: string, query: string, actor: string): seq<Entry> {
    TopN(SearchHits(entries, topic, query, actor), SearchLimit, CreatedAt)
  }

  lemma SearchResultSpec(entries: seq<Entry>, topic: string, query: string, actor: string)
    ensures var r, hits := SearchResult(entries, topic, query, actor), SearchHits(entries, topic, query, actor);
      && |r| <= SearchLimit
      && |r| == Min(SearchLimit, |hits|)
      && SortedDesc(r, CreatedAt)
      && (forall e :: e in r ==> e in entries && SearchHit(e, topic, query, actor))
      && (|hits| <= SearchLimit ==> multiset(r) == multiset(hits))
      && (forall e :: e in entries && SearchHit(e, topic, query, actor) && e !in r ==>
            forall i :: 0 <= i < |r| ==> LexLe(CreatedAt(e), CreatedAt(r[i])))
  {
    var hits := SearchHits(entries, topic, query, actor);
    var r := SearchResult(entries, topic, query, actor);
    forall e | e in r ensures e in hits { assert e in multiset(r); }
  }

  /** For a query without wildcards, every entry `searchEntries` returns has
      the query in its content or in its tags' JSON text, up to ASCII case. */
  lemma SearchResultContains(entries: seq<Entry>, topic: string, query: string, actor: string)
    requires Literal(query)
    ensures forall e :: e in SearchResult(entries, topic, query, actor) ==>
      FoldContains(e.content, query) || FoldContains(TagsText(e.metadata.tags), query)
  {
    SearchResultSpec(entries, topic, query, actor);
    forall e | e in SearchResult(entries, topic, query, actor)
      ensures FoldContains(e.content, query) || FoldContains(TagsText(e.metadata.tags), query)
    {
      LiteralInfixPattern(query, e.content);
      LiteralInfixPattern(query, TagsText(e.metadata.tags));
    }
  }

  /** Appending `%` to a topic changes nothing: the pattern is not extended
      twice when the topic already ends with `%`, and `%%` matches what `%` matches. */
  lemma TrailingPercentIgnored(entries: seq<Entry>, topic: string, actor: string)
    ensures TopicEntries(entries, topic + "%", actor) == TopicEntries(entries, topic, actor)
  {
    forall e | e in entries ensures InTopicFor(e, topic + "%", actor) == InTopicFor(e, topic, actor) {
      if |topic| > 0 && topic[|topic| - 1] == '%' {
        var t := topic[..|topic| - 1];
        assert topic == t + "%";
        assert topic + "%" == t + "%%";
        DoublePercentTail(t, e.topic);
      }
    }
    FilterCongruent(entries, e => InTopicFor(e, topic + "%", actor), e => InTopicFor(e, topic, actor));
  }

  /** Soundness for a wildcard-free topic: every returned entry's topic starts
      with the topic (ignoring ASCII case), and the actor may read it. */
  lemma TopicEntriesSound(entries: seq<Entry>, topic: string, actor: string, e: Entry)
    requires Literal(topic)
    requires e in TopicEntries(entries, topic, actor)
    ensures FoldPrefix(topic, e.topic)
    ensures e.permissions.read == [] || actor in e.permissions.read
  {
    TopicEntriesMember(entries, topic, actor, e);
    if |topic| > 0 { assert topic[|topic| - 1] != '%'; }
    LiteralPrefixPattern(topic, e.topic);
  }

  /** A topic's pattern matches the topic itself and everything below it. */
  lemma TopicPatternMatchesExtension(topic: string, rest: string)
    ensures Like(TopicPattern(topic), topic + rest)
  {
    if |topic| > 0 && topic[|topic| - 1] == '%' {
      var t := topic[..|topic| - 1];
      assert topic == t + "%";
      assert topic + rest == t + ("%" + rest);
      SelfPrefixMatches(t, "%" + rest);
    } else {
      SelfPrefixMatches(topic, rest);
    }
  }

  /** Completeness: a stored entry whose topic is the given topic or lies below
      it, and that the actor may read, is returned. */
  lemma TopicEntriesComplete(entries: seq<Entry>, topic: string, rest: string, actor: string, e: Entry)
    requires e in entries && e.topic == topic + rest
    requires ReadAllowed(e, actor)
    ensures e in TopicEntries(entries, topic, actor)
  {
    TopicPatternMatchesExtension(topic, rest);
    assert InTopicFor(e, topic, actor);
    TopicEntriesMember(entries, topic, actor, e);
  }

  /** The topic match is a raw string prefix, not a path-segment match:
      `/team` also selects `/teamwork`. */
  lemma TopicMatchIgnoresSegments()
    ensures Like(TopicPattern("/team"), "/teamwork")
  {
    assert TopicPattern("/team") == "/team" + "%";
    assert "/teamwork" == "/team" + "work";
    SelfPrefixMatches("/team", "work");
  }

  /** Every tag's JSON text is part of the tags' JSON text. */
  lemma QuotedTagInTagsText(tags: seq<string>, k: nat)
    requires k < |tags|
    ensures Infix(Json.Quote(tags[k]), TagsText(tags))
  {
    var qs := seq(|tags|, i requires 0 <= i < |tags| => Json.Quote(tags[i]));
    JoinHasItem(qs, ",", k);
    InfixOfConcat("[", Join(qs, ","), "]");
    InfixTransitive(Json.Quote(tags[k]), Join(qs, ","), TagsText(tags));
  }

  /** A tag is matched in its escaped form: a tag holding `"` is found by the
      query `\"`, which is how `JSON.stringify` writes the quote. */
  lemma EscapedQuoteFindsTag(e: Entry, k: nat, j: nat)
    requires k < |e.metadata.tags| && j < |e.metadata.tags[k]| && e.metadata.tags[k][j] == '"'
    ensures MatchesQuery(e, "\\\"")
  {
    var tags, w := e.metadata.tags, "\\\"";
    var text := TagsText(tags);
    Json.QuoteShowsEscapedQuote(tags[k], j);
    QuotedTagInTagsText(tags, k);
    InfixTransitive(w, Json.Quote(tags[k]), text);
    var i :| 0 <= i <= |text| && OccursAt(text, w, i);
    OccursFoldContains(text, w, i);
    LiteralInfixPattern(w, text);
  }

  /** A query holding a control character never matches the tags: their JSON
      text writes every control character as an escape. */
  lemma ControlQueryMissesTags(tags: seq<string>, query: string, i: nat)
    requires i < |query| && query[i] < ' '
    ensures !Like("%" + query + "%", TagsText(tags))
  {
    var p, text := "%" + query + "%", TagsText(tags);
    assert p[i + 1] == query[i];
    TagsTextHasNoControl(tags);
    ControlCharUnmatched(p, text, i + 1);
  }

  /** The query is matched against the tags' JSON text, so every entry passes
      the query test for `[`, whatever its content and tags. */
  lemma BracketQueryMatchesEveryEntry(e: Entry)
    ensures MatchesQuery(e, "[")
  {
    var text := TagsText(e.metadata.tags);
    assert text[0] == '[';
    assert FoldPrefix("[", text);
    assert "%" + "[" + "%" == "%[%";
    LiteralInfixPattern("[", text);
  }

  // ---------------------------------------------------------------------------
  // Event query

  /** The optional filters of `getEvents`. */
  datatype EventFilter = EventFilter(
    topic: Option<string>,
    types: Option<seq<EventType>>,
    from: Option<string>,
    to: Option<string>,
    actor: Option<string>)

  /** A filter value JavaScript treats as given: present and not the empty string. */
  predicate Given(o: Option<string>) {
    o.Some? && o.value != ""
  }

  /** What `getEvents` selects: each filter applies only when given; the time
      range is inclusive; the actor match is exact. */
  predicate EventMatches(f: EventFilter, ev: Event) {
    TopicOk(f, ev) && TypeOk(f, ev) && FromOk(f, ev) && ToOk(f, ev) && ActorOk(f, ev)
  }

  predicate TopicOk(f: EventFilter, ev: Event) { Given(f.topic) ==> Like(f.topic.value + "%", ev.topic) }
  predicate TypeOk(f: EventFilter, ev: Event) { f.types.Some? && |f.types.value| > 0 ==> ev.eventType in f.types.value }
  predicate FromOk(f: EventFilter, ev: Event) { Given(f.from) ==> LexLe(f.from.value, ev.timestamp) }
  predicate ToOk(f: EventFilter, ev: Event) { Given(f.to) ==> LexLe(ev.timestamp, f.to.value) }
  predicate ActorOk(f: EventFilter, ev: Event) { Given(f.actor) ==> ev.actor == f.actor.value }

  function Timestamp(ev: Event): string { ev.timestamp }

  function EventHits(events: seq<Event>, f: EventFilter): seq<Event> {
    Filter(events, ev => EventMatches(f, ev))
  }

  const EventLimit: nat := 100

  /** `getEvents`: at most a hundred matching events, newest first; all matches
      when there are no more than a hundred, and no match left out is newer
      than one returned. */
  function EventQuery(events: seq<Event>, f: EventFilter): seq<Event> {
    TopN(EventHits(events, f), EventLimit, Timestamp)
  }

  lemma EventQuerySpec(events: seq<Event>, f: EventFilter)
    ensures var r, hits := EventQuery(events, f), EventHits(events, f);
      && |r| <= EventLimit
      && |r| == Min(EventLimit, |hits|)
      && SortedDesc(r, Timestamp)
      && (forall ev :: ev in r ==> ev in events && EventMatches(f, ev))
      && (|hits| <= EventLimit ==> multiset(r) == multiset(hits))
      && (forall ev :: ev in events && EventMatches(f, ev) && ev !in r ==>
            forall i :: 0 <= i < |r| ==> LexLe(Timestamp(ev), Timestamp(r[i])))
  {
    var hits := EventHits(events, f);
    var r := EventQuery(events, f);
    forall ev | ev in r ensures ev in hits { assert ev in multiset(r); }
  }

  /** One condition of the WHERE clause `getEvents` assembles, with its bound parameter. */
  datatype Clause =
    | TopicLike(pattern: string)
    | TypeIn(types: seq<EventType>)
    | TimestampAtLeast(from: string)
    | TimestampAtMost(to: string)
    | ActorIs(actor: string)

  predicate Holds(c: Clause, ev: Event) {
    match c
    case TopicLike(p) => Like(p, ev.topic)
    case TypeIn(ts) => ev.eventType in ts
    case TimestampAtLeast(from) => LexLe(from, ev.timestamp)
    case TimestampAtMost(to) => LexLe(ev.timestamp, to)
    case ActorIs(a) => ev.actor == a
  }

  /** `WHERE 1=1 AND c1 AND c2 ...`. */
  predicate AllHold(cs: seq<Clause>, ev: Event) {
    forall i :: 0 <= i < |cs| ==> Holds(cs[i], ev)
  }

  /** Appending `AND c` to the WHERE clause adds exactly the condition `c`. */
  lemma AllHoldSnoc(cs: seq<Clause>, c: Clause)
    ensures forall ev :: AllHold(cs + [c], ev) == (AllHold(cs, ev) && Holds(c, ev))
  {
    forall ev ensures AllHold(cs + [c], ev) == (AllHold(cs, ev) && Holds(c, ev)) {
      assert forall i :: 0 <= i < |cs| ==> (cs + [c])[i] == cs[i];
      assert (cs + [c])[|cs|] == c;
    }
  }

  // ---------------------------------------------------------------------------
  // The store

  class SilbenklingDB {
    var entryRows: seq<EntryRow>
    var eventRows: seq<EventRow>

    /** Every stored row names a member of its type enumeration. */
    predicate Valid()
      reads this
    {
      && (forall i :: 0 <= i < |entryRows| ==> ValidEntryRow(entryRows[i]))
      && (forall i :: 0 <= i < |eventRows| ==> ValidEventRow(eventRows[i]))
    }

    /** A new database with the schema's two empty tables. */
    constructor ()
      ensures Valid() && entryRows == [] && eventRows == []
    {
      entryRows := [];
      eventRows := [];
    }

    function Entries(): seq<Entry>
      reads this
      requires Valid()
    {
      DecodeEntries(entryRows)
    }

    function Events(): seq<Event>
      reads this
      requires Valid()
    {
      DecodeEvents(eventRows)
    }

    /** `insertEntry`: appends one row; reading back gives the entry itself. */
    method InsertEntry(entry: Entry)
      requires Valid()
      modifies this
      ensures Valid()
      ensures entryRows == old(entryRows) + [EntryToRow(entry)]
      ensures eventRows == old(eventRows)
      ensures Entries() == old(Entries()) + [entry]
    {
      EntryRoundTrip(entry);
      entryRows := entryRows + [EntryToRow(entry)];
    }

    /** `insertEvent`: appends one row; reading back gives the event itself
        unless its `entry_id` is the empty string. */
    method InsertEvent(event: Event)
      requires Valid()
      modifies this
      ensures Valid()
      ensures eventRows == old(eventRows) + [EventToRow(event)]
      ensures entryRows == old(entryRows)
      ensures Events() == old(Events()) + [RowToEvent(EventToRow(event))]
      ensures event.entryId != Some("") ==> Events() == old(Events()) + [event]
    {
      EventRoundTrip(event);
      eventRows := eventRows + [EventToRow(event)];
    }

    /** `searchEntries(topic, query, actor)`. */
    function SearchEntries(topic: string, query: string, actor: string): seq<Entry>
      reads this
      requires Valid()
    {
      SearchResult(Entries(), topic, query, actor)
    }

    /** `getEntriesByTopic(topic, actor)`. */
    function GetEntriesByTopic(topic: string, actor: string): seq<Entry>
      reads this
      requires Valid()
    {
      TopicEntries(Entries(), topic, actor)
    }

    /** `getEvents(filters)`: assembles the WHERE clause one given filter at a
        time, then runs it; the result is exactly the event query. */
    method GetEvents(filters: EventFilter) returns (events: seq<Event>)
      requires Valid()
      ensures events == EventQuery(Events(), filters)
    {
      var f := filters;
      var clauses: seq<Clause> := [];
      if Given(f.topic) {
        AllHoldSnoc(clauses, TopicLike(f.topic.value + "%"));
        clauses := clauses + [TopicLike(f.topic.value + "%")];
      }
      assert forall ev :: AllHold(clauses, ev) == TopicOk(f, ev);
      if f.types.Some? && |f.types.value| > 0 {
        AllHoldSnoc(clauses, TypeIn(f.types.value));
        clauses := clauses + [TypeIn(f.types.value)];
      }
      assert forall ev :: AllHold(clauses, ev) == (TopicOk(f, ev) && TypeOk(f, ev));
      if Given(f.from) {
        AllHoldSnoc(clauses, TimestampAtLeast(f.from.value));
        clauses := clauses + [TimestampAtLeast(f.from.value)];
      }
      assert forall ev :: AllHold(clauses, ev) == (TopicOk(f, ev) && TypeOk(f, ev) && FromOk(f, ev));
      if Given(f.to) {
        AllHoldSnoc(clauses, TimestampAtMost(f.to.value));
        clauses := clauses + [TimestampAtMost(f.to.value)];
      }
      assert forall ev :: AllHold(clauses, ev) == (TopicOk(f, ev) && TypeOk(f, ev) && FromOk(f, ev) && ToOk(f, ev));
      if Given(f.actor) {
        AllHoldSnoc(clauses, ActorIs(f.actor.value));
        clauses := clauses + [ActorIs(f.actor.value)];
      }
      assert forall ev :: AllHold(clauses, ev) == EventMatches(f, ev);
      var stored := Events();
      FilterCongruent(stored, ev => AllHold(clauses, ev), ev => EventMatches(filters, ev));
      events := TopN(Filter(stored, ev => AllHold(clauses, ev)), EventLimit, Timestamp);
    }
  }
}
