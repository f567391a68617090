# silbenkling-engine, modelled in Dafny

silbenkling-engine is a small knowledge store with an event log. Actors
**put** knowledge entries (docs, Q&A pairs, facts, tasks, links, events)
under hierarchical topics. They **get** answers to questions, which a
language-model provider (Anthropic, OpenAI or an offline mock) writes
from every entry under the topic that the actor may read. They
**monitor** the event log. Every write and every question leaves an
event behind, and a confirmed question and answer can be saved back as a
`qa` entry.

The model covers the engine and its store:

- `types.dfy` (module `Types`): the record types and the two closed
  enumerations of entry and event types.
- `store.dfy` (module `Store`):
  - the SQLite store as a class `SilbenklingDB` over two append-only row
    tables;
  - the conversions between records and rows;
  - the three read queries, stated as filter, sort and limit over the
    decoded rows.
- `like.dfy` (module `SqlLike`): SQLite's `LIKE` operator.
- `json.dfy` (module `Json`): `JSON.stringify` on a string, which writes
  the `tags` column that searches match, and the `JSON.parse` that reads it back.
- `order.dfy` (module `Order`):
  - the string order SQLite compares timestamps by;
  - `ORDER BY … DESC LIMIT n`.
- `text.dfy` (module `Text`): the JavaScript string operations the
  engine uses, namely `trim`, `split`, `join`, `substring` and number
  formatting, and the search for the leftmost occurrence of a fixed
  marker that the reply-parsing regular expressions perform
  (`Text.IndexOf`).
- `llm.dfy` (module `Llm`):
  - provider selection from the environment;
  - the prompt and its context block;
  - the parsing of a provider's reply;
  - the mock provider, whose loop over the cited entries is the method
    `CiteLines`.
- `put.dfy` (module `Put`): `putEntry` and `putQA`.
- `get.dfy` (module `Get`): `getAnswer`, with its three events and its
  sources.
- `monitor.dfy` (module `Monitor`): `monitorEvents`, which counts the
  matching events per type in a loop.
- `qa_route.dfy` (module `QaRoute`): the `POST /api/qa` handler.

Several things are parameters rather than part of the model:

- Identifiers (`nanoid()`) and clock readings (`new Date().toISOString()`)
  are passed in, one per call in the source.
- The environment variables that choose the provider are a `ProviderEnv`
  value.
- The HTTP call to a vendor is a function `remote` from a provider and a
  prompt to a `Reply`: the completion text or an HTTP failure.

Behaviours of the code worth knowing:

- Matching by `LIKE` is case-insensitive for ASCII letters. This is
  SQLite's default, not a case-sensitive substring test.
- `%` and `_` in a topic or query act as wildcards.
- The topic match is a raw string prefix. `/team` also selects
  `/teamwork` (`Store.TopicMatchIgnoresSegments`).
- The search query is also matched against the JSON text of the tags.
  Every entry therefore passes the query test for `[`
  (`Store.BracketQueryMatchesEveryEntry`); the topic, read and limit
  rules still apply. A tag is matched in its escaped
  form: a tag holding `"` is found by the query `\"`
  (`Store.EscapedQuoteFindsTag`), and a query holding a line break never
  matches through the tags (`Store.ControlQueryMissesTags`).
- The follow-ups of a reply are read after its first `FOLLOWUPS:`, even
  one inside the answer's own text (`Llm.MarkerInAnswerTakesFollowups`).

## Model

| member | source | states |
|---|---|---|
| Types.EntryTypesClosed | src/types/index.ts:1 | There are exactly six entry types. Their names are pairwise distinct, and decoding a name gives the type back. |
| Types.EventTypesClosed | src/types/index.ts:21-28 | There are exactly seven event types. Their names are distinct, and each name decodes to its type. |
| Types.EntryTypeFromName | src/db/index.ts:150 | Decoding a stored `type` column gives a type with that name, or fails exactly when no type has that name. |
| Types.EventTypeFromName | src/db/index.ts:169 | The same, for the `type` column of an event row. |
| Store.OrNull | src/db/index.ts:56 | `entry_id \|\| null` keeps a present, non-empty id and turns an absent or empty one into NULL. |
| Store.RowToEntry | src/db/index.ts:146-164 | `rowToEntry` decodes an entry row. Its contract is `Store.EntryRoundTrip`: every inserted entry reads back unchanged. |
| Store.EntryRoundTrip | src/db/index.ts:146-164 | An entry written by `insertEntry` and read back by `rowToEntry` is the same entry. Tags keep their order, and an absent context stays absent. |
| Store.RowToEvent | src/db/index.ts:166-176 | `rowToEvent` decodes an event row. Its contract is `Store.EventRoundTrip`. |
| Store.EventRoundTrip | src/db/index.ts:166-176 | An event reads back with the same payload (absent stays absent). Its `entry_id` reads back unchanged exactly when it is not the empty string. |
| Store.TopicPattern | src/db/index.ts:85 | The topic pattern always ends in `%`. It is the topic itself when that already ends in `%`, and otherwise the topic with `%` appended. |
| Store.TopicEntriesSpec | src/db/index.ts:87-100 | The result is sorted by `created_at`, newest first. It is exactly the stored entries that match the topic pattern and that the actor may read, each as often as stored, with no limit. |
| Store.TopicEntriesMember | src/db/index.ts:87-95 | An entry is returned exactly when it is stored, its topic matches the topic pattern, and the actor may read it. |
| Store.TopicPatternMatchesExtension | src/db/index.ts:85-89 | The pattern built from a topic matches every topic that extends it. |
| Store.TrailingPercentIgnored | src/db/index.ts:85 | Asking for topic `t%` returns the same entries as asking for `t`. |
| Store.TopicEntriesSound | src/db/index.ts:87-98 | For a wildcard-free topic, every returned entry's topic starts with it (up to ASCII case). Its read list is empty or names the actor. |
| Store.TopicEntriesComplete | src/db/index.ts:87-95 | Every stored, readable entry whose topic extends the given topic is returned. |
| Store.TopicMatchIgnoresSegments | src/db/index.ts:85-89 | The topic `/team` selects an entry filed under `/teamwork`. |
| Store.TagsText | src/db/index.ts:34 | `JSON.stringify(tags)`: each tag written by `Json.Quote`, separated by commas, in brackets. What the search sees of it is stated by the next four lemmas and `Store.BracketQueryMatchesEveryEntry`. |
| Store.TagsTextHasNoControl | src/db/index.ts:34 | The tags' JSON text holds no raw control character. |
| Store.QuotedTagInTagsText | src/db/index.ts:34 | Each tag's JSON text occurs in the column's text. |
| Store.EscapedQuoteFindsTag | src/db/index.ts:67-76 | An entry with a tag holding `"` matches the query `\"`, the quote as `JSON.stringify` escapes it. |
| Store.ControlQueryMissesTags | src/db/index.ts:67-76 | A query holding a control character never matches the tags' JSON text. |
| Store.SearchResultContains | src/db/index.ts:66-69 | For a query without `%` or `_`, every returned entry contains the query, up to ASCII case, in its content or in its tags' JSON text. |
| Store.SearchResultSpec | src/db/index.ts:61-82 | At most 10 entries, newest first, each a stored entry under the topic, readable by the actor and matching the query. All matches are returned when there are at most 10, and no omitted match is newer than a returned one. |
| Store.BracketQueryMatchesEveryEntry | src/db/index.ts:67-76 | The query `[` matches every entry, through the JSON text of its tags. |
| Store.EventQuerySpec | src/db/index.ts:103-143 | At most 100 events, newest first, each a stored event passing every given filter. All matches are returned when there are at most 100, and no omitted match is newer than a returned one. |
| Store.AllHoldSnoc | src/db/index.ts:110-136 | Appending ` AND c` to the WHERE clause adds exactly the condition `c`. |
| Store.SilbenklingDB.constructor | src/db/index.ts:11-19 | A new store has two empty tables. |
| Store.SilbenklingDB.InsertEntry | src/db/index.ts:21-42 | Appends exactly one entry row and leaves the events alone. The decoded entries gain exactly the inserted entry. |
| Store.SilbenklingDB.InsertEvent | src/db/index.ts:44-59 | Appends exactly one event row and leaves the entries alone. The decoded events gain the inserted event, read back with a non-empty `entry_id` unchanged. |
| Store.SilbenklingDB.SearchEntries | src/db/index.ts:61-82 | `searchEntries` over the decoded rows. What it returns is stated by `Store.SearchResultSpec`. |
| Store.SilbenklingDB.GetEntriesByTopic | src/db/index.ts:84-101 | `getEntriesByTopic` over the decoded rows. What it returns is stated by `Store.TopicEntriesSpec`, `Store.TopicEntriesSound` and `Store.TopicEntriesComplete`. |
| Store.SilbenklingDB.GetEvents | src/db/index.ts:103-144 | Building the query one given filter at a time yields exactly the event query over the stored events. The method changes nothing. |
| SqlLike.Like | src/db/index.ts:66-67 | SQLite's `LIKE`: `%` matches any run, `_` any one character, any other character itself up to ASCII case. Stated by the `SqlLike` lemmas below. |
| SqlLike.FoldCase | src/db/index.ts:89 | Case folding maps exactly the ASCII capitals to their lower-case letters and leaves every other character alone. |
| SqlLike.LiteralPrefixPattern | src/db/index.ts:85-89 | For a wildcard-free `w`, `s LIKE w%` holds exactly when `w` is a case-insensitive prefix of `s`. |
| SqlLike.LiteralInfixPattern | src/db/index.ts:76 | For a wildcard-free `w`, `s LIKE %w%` holds exactly when `s` contains `w` up to ASCII case. |
| SqlLike.PercentMatchesAll | src/db/index.ts:76 | A lone `%` matches every string. |
| SqlLike.LikeNeedsChar | src/db/index.ts:66-67 | A pattern character other than a wildcard is matched by some character of the subject with the same case folding. |
| SqlLike.DoublePercentTail | src/db/index.ts:85 | A pattern ending in `%%` matches exactly what it matches ending in `%`. |
| Json.Quote | src/db/index.ts:34 | `JSON.stringify` on a string: the quoted, escaped text. Stated by the `Json` lemmas below. |
| Json.EscapePlain | src/db/index.ts:34 | Text with no quote, backslash or control character is written unchanged. |
| Json.EscapeHasNoControl | src/db/index.ts:34 | The written text holds no raw control character. |
| Json.QuoteShowsEscapedQuote | src/db/index.ts:34 | A quote inside the string appears as `\"` in the written text. |
| Json.Unescape | src/db/index.ts:153 | `JSON.parse` on a string literal's body. Its contract is `Json.EscapeRoundTrip`. |
| Json.EscapeRoundTrip | src/db/index.ts:153 | `JSON.parse` reads back exactly the string `JSON.stringify` wrote. |
| Order.LexLeTotal | src/db/index.ts:138 | Any two timestamps are comparable under the string order. |
| Order.LexLeTransitive | src/db/index.ts:138 | The string order used by `ORDER BY` is transitive. |
| Order.SortDesc | src/db/index.ts:94 | `ORDER BY … DESC` gives a permutation of its input, sorted by descending key. |
| Order.TopN | src/db/index.ts:138 | `ORDER BY … DESC LIMIT n` keeps min(n, size) elements of its input, sorted. It keeps everything when the input fits, and no dropped element has a larger key than a kept one. |
| Order.TakeLeavesOlder | src/db/index.ts:138 | Cutting a descending list after `n` elements drops only elements whose key is no larger than any kept one. |
| Text.Trim | src/engine/llm.ts:79 | `trim()` gives a string with no whitespace at either end, and everything it cuts off at either end is whitespace. What it keeps is stated by `Text.TrimOccurs`. |
| Text.TrimOccurs | src/engine/llm.ts:79 | The trimmed string is the slice of the input that starts after the leading whitespace, so with `Text.Trim` it is exactly the text between the two whitespace runs. |
| Text.IndexOf | src/engine/llm.ts:74 | The result is the first position where the pattern occurs, and it is absent exactly when the pattern does not occur. |
| Text.SplitJoin | src/engine/llm.ts:79 | Splitting at a separator that no piece contains gives the joined pieces back. |
| Text.NatToStringDigits | src/engine/llm.ts:27 | `${i + 1}` is a run of decimal digits with no leading zero whose value is the number. |
| Text.Excerpt | src/engine/get.ts:65 | `substring(0, n)` plus `...` exactly when the content is longer than `n`. The result is never longer than `n + 3`. |
| Llm.ProviderName | src/engine/llm.ts:188 | An unset or empty `LLM_PROVIDER` means `mock`, and any other value is taken as given. |
| Llm.SelectProvider | src/engine/llm.ts:187-206 | `getLLMProvider`. Its contract is `Llm.SelectProviderSpec`. |
| Llm.SelectProviderSpec | src/engine/llm.ts:187-206 | It selects mock exactly for an unset provider or `mock`. It selects Anthropic or OpenAI exactly when that name is set together with a non-empty key, and the provider holds that key. A provider named `anthropic` or `openai` without its key fails with `ANTHROPIC_API_KEY not set` or `OPENAI_API_KEY not set` respectively. Any other name fails with `Unknown LLM provider: ` followed by the name. |
| Llm.Blocks | src/engine/llm.ts:26-27 | One context block per entry, in input order. Block `i` is `[i+1] Topic: …\nType: …\n<content>`. |
| Llm.Context | src/engine/llm.ts:26-28 | The context block: the numbered blocks joined by `\n\n---\n\n`. Stated by `Llm.ContextSnoc` and `Llm.PromptCarriesEntries`. |
| Llm.ContextSnoc | src/engine/llm.ts:26-28 | Adding an entry appends `\n\n---\n\n` and its numbered block to the context. |
| Llm.Prompt | src/engine/llm.ts:30-46 | The prompt text around the context and the question. Stated by `Llm.PromptCarriesEntries`. |
| Llm.PromptCarriesEntries | src/engine/llm.ts:30-46 | The prompt contains the question and the full content of every retrieved entry. |
| Text.SkipWhitespace | src/engine/llm.ts:74 | `\s*` consumes the longest run of whitespace from the given position. |
| Llm.LineEnd | src/engine/llm.ts:75 | `.*` stops at the first line terminator, or at the end. |
| Llm.ParseAnswer | src/engine/llm.ts:74-77 | The answer regex. Stated by `Llm.ParseAnswerSound`, `Llm.FormattedAnswerParses` and `Llm.EmptyAnswerTakesFollowupsLine`. |
| Llm.ParseAnswerSound | src/engine/llm.ts:74-77 | Without `ANTWORT:`, the whole reply is the answer. With it, the answer is trimmed, is part of the reply, and contains no `\nFOLLOWUPS:`. |
| Llm.CleanItems | src/engine/llm.ts:79 | The follow-ups kept are never more than the pieces, and each one is trimmed and non-empty. Which pieces are kept is stated by `Llm.CleanItemsKeeps` and `Llm.CleanItemsAppend`. |
| Llm.CleanItemsKeeps | src/engine/llm.ts:79 | Every piece whose trim is non-empty is kept, trimmed, and every kept item is the trim of some piece. |
| Llm.CleanItemsAppend | src/engine/llm.ts:79 | Cleaning works piece by piece: cleaning two runs of pieces one after the other gives the two results one after the other, so the order of the pieces is kept. |
| Llm.CleanItemsFollowupText | src/engine/llm.ts:79 | Cleaning pieces that hold no `\|` and no line break keeps that property. |
| Llm.ParseFollowups | src/engine/llm.ts:75-80 | The follow-ups regex, split and clean-up. Stated by `Llm.ParseFollowupsSound` and `Llm.FormattedFollowupsParse`. |
| Llm.ParseFollowupsSound | src/engine/llm.ts:75-80 | Follow-ups are absent exactly when `FOLLOWUPS:` does not occur. Each follow-up is non-empty, trimmed, and free of `\|` and line breaks. |
| Llm.FormattedAnswerParses | src/engine/llm.ts:74-77 | A reply in the format the prompt asks for gives back its answer, when the answer is non-empty, has no whitespace at either end and holds no line break followed by `FOLLOWUPS:`. A `FOLLOWUPS:` elsewhere in the answer does not disturb it. |
| Llm.EmptyAnswerTakesFollowupsLine | src/engine/llm.ts:74-77 | With an empty answer, `\s*` after `ANTWORT:` runs across the line break, so the reply `ANTWORT: \nFOLLOWUPS: a` parses to the answer `FOLLOWUPS: a`. This is why the round trip requires a non-empty answer. |
| Llm.MarkerInAnswerTakesFollowups | src/engine/llm.ts:75-80 | The follow-ups regex takes the first `FOLLOWUPS:`, even one inside the answer: the reply `ANTWORT: see FOLLOWUPS: x\nFOLLOWUPS: a` gives the follow-ups `["x"]`. This is why the round trip requires an answer without that marker. |
| Llm.FormattedFollowupsMarker | src/engine/llm.ts:75 | In such a reply, the first `FOLLOWUPS:` is the one the format puts after the answer. |
| Llm.JoinedFollowupsParse | src/engine/llm.ts:79 | Splitting the ` \| `-joined follow-ups at `\|`, trimming and dropping empties gives them back. |
| Llm.FormattedFollowupsParse | src/engine/llm.ts:75-80 | A formatted reply gives back exactly its follow-ups. |
| Llm.ParseFormattedReply | src/engine/llm.ts:44-82 | Round trip: a reply written in the requested `ANTWORT: … FOLLOWUPS: a \| b` format parses back into the same answer and follow-ups. |
| Llm.RemoteAnswerSpec | src/engine/llm.ts:67-82 | A vendor provider returns the no-entries message without calling out when nothing was retrieved. It fails exactly when the HTTP request fails, with `<Vendor> API error: <statusText>`, and otherwise parses the completion. |
| Llm.RemoteAnswer | src/engine/llm.ts:19-83 | A vendor provider's `generateAnswer` (Anthropic here; OpenAI at lines 93-156 has the same shape). Its contract is `Llm.RemoteAnswerSpec`. |
| Llm.MockResponse | src/engine/llm.ts:159-184 | What the mock provider answers. Stated by `Llm.MockCitesFirstEntries`, `Llm.MockIgnoresLaterEntries` and `Llm.MockResponseShape`, and computed by the loop of `Llm.MockGenerateAnswer`. |
| Llm.ProviderAnswer | src/engine/llm.ts:8-10 | The selected provider's answer. Stated by `Llm.NoEntriesSameForAllProviders` and `Llm.GenerateAnswer`. |
| Llm.MockGenerateAnswer | src/engine/llm.ts:159-184 | The mock provider's loop builds exactly the mock response: the header, one line per cited entry, and the note. |
| Llm.CiteLines | src/engine/llm.ts:171-173 | The loop over the cited entries appends exactly one numbered line per entry, in order. |
| Llm.MockLinesCite | src/engine/llm.ts:171-173 | Every cited line appears in the cited lines. |
| Llm.MockCitesFirstEntries | src/engine/llm.ts:167-175 | Each of the first three entries is cited as `[i+1] ` plus its 200-character excerpt. |
| Llm.MockIgnoresLaterEntries | src/engine/llm.ts:167 | Entries after the third do not change the mock answer. |
| Llm.MockResponseShape | src/engine/llm.ts:169-183 | The mock answer starts with the header and ends with the note. It has follow-ups exactly when more than one entry was retrieved: two of them, the first naming the first entry's topic. |
| Llm.NoEntriesSameForAllProviders | src/engine/llm.ts:20-24 | With no entries, every provider returns the same fixed message without follow-ups. |
| Llm.GenerateAnswer | src/engine/llm.ts:8-10 | `generateAnswer` on the selected provider is that provider's answer. |
| Put.NewEntry | src/engine/put.ts:8-24 | The entry `putEntry` builds. Stated by `Put.NewEntryVisibleToAll`. |
| Put.NewEntryVisibleToAll | src/engine/put.ts:8-24 | A new entry has the requested topic, type, content and author, with tags defaulting to none. Every actor finds it under its topic. |
| Put.PutEntry | src/engine/put.ts:5-44 | Writes exactly one entry row and then one `entry_added` row, linking the event to the entry and carrying its type and tags. Returns the stored entry. |
| Put.QaContentSplits | src/engine/put.ts:50 | When the question holds no `\n\nA: `, the stored Q&A content splits back into its question and answer at the first `\n\nA: `. |
| Put.PutQA | src/engine/put.ts:46-54 | Stores a `qa` entry tagged exactly `qa`, with content `Q: <q>\n\nA: <a>`, and its `entry_added` event. |
| Get.SourcesCiteEntries | src/engine/get.ts:61-66 | One source per retrieved entry, in order, with id, topic and type copied. Each excerpt begins with the content's first 150 characters, is the content when that is no longer, ends in `...` when it is longer, and never exceeds 153 characters. |
| Get.Answer | src/engine/get.ts:24-68 | What `getAnswer` returns for the retrieved entries. Stated by `Get.NothingRetrievedNeedsNoProvider`, `Get.AnswerOutcomes` and `Get.MockNeverFails`. |
| Get.NothingRetrievedNeedsNoProvider | src/engine/get.ts:24-41 | With nothing retrieved, the answer is the fixed message with no sources, whatever the provider configuration. |
| Get.AnswerOutcomes | src/engine/get.ts:43-68 | Answering fails exactly when entries were retrieved and the provider is misconfigured or its remote request fails. A success cites exactly the retrieved entries. |
| Get.MockNeverFails | src/engine/get.ts:43-44 | With the mock provider, every question gets an answer. |
| Get.AskAndRetrieve | src/engine/get.ts:9-22 | Appends the `question_asked` event, leaves the entries alone, and returns the entries under the topic that the actor may read, as they stood before. |
| Get.Respond | src/engine/get.ts:43-68 | Selects the provider, asks it, and returns its answer with one source per retrieved entry, or the provider's failure. |
| Get.GetAnswer | src/engine/get.ts:6-69 | Records `question_asked`, then `question_unanswered` (nothing retrieved) or `question_answered` with the source count (answered), or nothing more (provider failed). It inserts no entry and answers from the entries under the topic that the actor may read. |
| Monitor.CountsAddUp | src/engine/monitor.ts:25-32 | The summary has a count for exactly the seven event types, and the counts add up to the number of events. |
| Monitor.CountByType | src/engine/monitor.ts:15-27 | The `by_type` record. Stated by `Monitor.CountsAddUp`, `Monitor.CountIsMultiplicity` and `Monitor.CountByTypeSnoc`. |
| Monitor.CountIsMultiplicity | src/engine/monitor.ts:25-27 | A type's count is its multiplicity among the events' types, so it does not depend on their order. It is zero exactly when no returned event has that type. |
| Monitor.CountByTypeSnoc | src/engine/monitor.ts:25-27 | Counting one more event adds one to its type's count and leaves the rest. |
| Monitor.CountByTypeEmpty | src/engine/monitor.ts:15-23 | Before counting, every one of the seven types has count 0. |
| Monitor.CountEvents | src/engine/monitor.ts:15-27 | Starting from zero for every type and adding one per event, the loop ends with each type's count of the events. |
| Monitor.MonitorEvents | src/engine/monitor.ts:4-36 | Returns the event query for the request's filters and actor (at most 100 events). The total is the number of events and `by_type` holds the per-type counts. With an actor given, every event is that actor's. |
| QaRoute.Refusal | src/app/api/qa/route.ts:8-16 | A body that is not JSON, or is the JSON value `null` (reading a field of `null` throws, and route.ts:38-43 turns that into 500), gets status 500. A body missing any of the four fields gets status 400. A body is refused exactly when one of those holds. |
| QaRoute.PostQa | src/app/api/qa/route.ts:7-45 | A refused body leaves the store unchanged. An accepted one stores the `qa` entry, its `entry_added` event, then `qa_confirmed` linked to the entry with the question as payload. It returns the entry, which every actor finds under the topic. |

## Left out

- Persistence is left out. There is no file, no schema (`src/db/schema.sql` is not part of this model) and no storage error, so every insert succeeds. `close()` and the `getDB` singleton are not modelled: each operation receives the store.
- `async`/`await` is left out. Every operation runs to completion in order.
- JSON text is modelled only for the `tags` column, which `searchEntries` matches with `LIKE` (`Store.TagsText`, `Json.Quote`). The rows keep context, permissions and payloads as the values they encode, and `JSON.parse` is taken as the inverse of `JSON.stringify` for them (for strings, `Json.EscapeRoundTrip` proves it). Payloads hold only strings, numbers and string lists, as in this core.
- Json.Unescape: a `\uXXXX` escape of a surrogate is refused instead of being paired with the next escape. `JSON.stringify` never writes one for a string of Unicode scalar values, so the round trip is unaffected.
- Store.TopicEntriesSpec, Store.SearchResultSpec, Store.SilbenklingDB.SearchEntries, Store.SilbenklingDB.GetEntriesByTopic: the read check is list membership of the actor (src/db/index.ts:70, 92). The source tests the permission list's JSON text with `LIKE %"<actor>"%`, which also matches case-insensitively and treats `%` and `_` in an actor name as wildcards. It also sees the escaped text: an actor holding `"` or `\` is written as `\"` or `\\` in the list, so the pattern misses a reader that membership finds. And it can match across items: the actor `a","b` matches the read list `["a","b"]`, of which it is not a member.
- Store.TopicEntriesSpec: rows with equal `created_at` (and, in `Store.EventQuerySpec`, equal timestamps) come out in one fixed order. SQL leaves their order open, and the contracts state only the sort order and the multiset.
- Strings are sequences of Unicode code points. JavaScript counts UTF-16 code units in `substring(0, 150)` and `substring(0, 200)`, so excerpts differ for text outside the Basic Multilingual Plane.
- The vendor HTTP calls are left out: URL, headers, model names and the response JSON shapes (`content[0].text`, `choices[0].message.content`). They become the `remote` parameter. A malformed response body, which would throw in the source, is not modelled. Neither is a `fetch` that rejects (a network failure): it throws a `TypeError` whose message is not `<Vendor> API error: …`, and `Reply` has no case for it.
- Llm.RemoteAnswerSpec: that a failed request is not retried follows from `remote` being called once. No contract states it.
- QaRoute.PostQa: a body field that is present but not a string is treated like a missing field. The source would pass a truthy non-string on to `putQA`.
- The other HTTP routes (`/api/put`, `/api/get`, `/api/monitor`, `/api/topics`, `/api/types`) and the React UI are not part of this model.
