/** Answer synthesis (src/engine/llm.ts): the provider chosen by the
    environment, the context and prompt built from retrieved entries, the
    parsing of a language model's reply, and the offline mock provider.

    The HTTP call of a remote provider is a function parameter `remote`:
    given the provider (with its API key) and the prompt, it returns either
    the reply text or a failed HTTP status. */
module Llm {
  import opened Wrappers
  import opened Text
  import opened Types

  /** What a provider returns: an answer and, optionally, follow-up questions. */
  datatype LlmResponse = LlmResponse(answer: string, followups: Option<seq<string>>)

  /** Every provider's answer when no entry was retrieved. */
  const NoEntriesMessage: string :=
    "Ich habe keine passenden Einträge zu dieser Frage gefunden. Bitte füge Wissen hinzu oder formuliere die Frage anders."

  // ---------------------------------------------------------------------
  // Provider selection

  datatype Provider = Mock | Anthropic(apiKey: string) | OpenAI(apiKey: string)

  /** The three environment variables the selection reads; `None` is unset. */
  datatype ProviderEnv = ProviderEnv(
    llmProvider: Option<string>,
    anthropicApiKey: Option<string>,
    openaiApiKey: Option<string>)

  /** An environment variable's value, where unset and empty are the same falsy value. */
  function Setting(v: Option<string>): string {
    if v.Some? then v.value else ""
  }

  /** The configured provider name, `mock` when unset or empty. */
  function ProviderName(env: ProviderEnv): (name: string)
    ensures name != ""
    ensures Setting(env.llmProvider) == "" ==> name == "mock"
    ensures Setting(env.llmProvider) != "" ==> name == Setting(env.llmProvider)
  {
    if Setting(env.llmProvider) == "" then "mock" else Setting(env.llmProvider)
  }

  /** `getLLMProvider`: the mock provider unless a remote one is configured
      together with its non-empty API key; otherwise an error naming the
      missing key or the unknown provider. */
  function SelectProvider(env: ProviderEnv): Result<Provider, string>
  {
    var name := ProviderName(env);
    if name == "mock" then Ok(Mock)
    else if name == "anthropic" then
      if Setting(env.anthropicApiKey) == "" then Err("ANTHROPIC_API_KEY not set")
      else Ok(Anthropic(Setting(env.anthropicApiKey)))
    else if name == "openai" then
      if Setting(env.openaiApiKey) == "" then Err("OPENAI_API_KEY not set")
      else Ok(OpenAI(Setting(env.openaiApiKey)))
    else Err("Unknown LLM provider: " + name)
  }

  /** `getLLMProvider` picks the provider the settings name, needs the
      matching key for a remote one, and names what is wrong otherwise. */
  lemma SelectProviderSpec(env: ProviderEnv)
    ensures var r, name := SelectProvider(env), Setting(env.llmProvider);
      && ((r.Ok? && r.value.Mock?) <==> name in {"", "mock"})
      && ((r.Ok? && r.value.Anthropic?) <==> name == "anthropic" && Setting(env.anthropicApiKey) != "")
      && ((r.Ok? && r.value.OpenAI?) <==> name == "openai" && Setting(env.openaiApiKey) != "")
      && (r.Ok? && r.value.Anthropic? ==> r.value.apiKey == Setting(env.anthropicApiKey))
      && (r.Ok? && r.value.OpenAI? ==> r.value.apiKey == Setting(env.openaiApiKey))
      && (name == "anthropic" && Setting(env.anthropicApiKey) == "" ==> r == Err("ANTHROPIC_API_KEY not set"))
      && (name == "openai" && Setting(env.openaiApiKey) == "" ==> r == Err("OPENAI_API_KEY not set"))
      && (ProviderName(env) !in {"mock", "anthropic", "openai"} ==>
            r == Err("Unknown LLM provider: " + ProviderName(env)))
  {
  }

  // ---------------------------------------------------------------------
  // Context and prompt

  /** One retrieved entry as the prompt shows it, numbered from 1. */
  function Block(i: nat, e: Entry): string {
    "[" + NatToString(i + 1) + "] Topic: " + e.topic + "\nType: " + EntryTypeName(e.entryType) + "\n" + e.content
  }

  function Blocks(entries: seq<Entry>): (r: seq<string>)
    ensures |r| == |entries|
    ensures forall i :: 0 <= i < |r| ==> r[i] == Block(i, entries[i])
  {
    seq(|entries|, i requires 0 <= i < |entries| => Block(i, entries[i]))
  }

  const BlockSeparator: string := "\n\n---\n\n"

  /** The numbered entries, separated by a horizontal rule. */
  function Context(entries: seq<Entry>): string {
    Join(Blocks(entries), BlockSeparator)
  }

  const PromptHead: string :=
    "Du bist ein Wissensassistent. Beantworte die folgende Frage ausschließlich basierend auf den gegebenen Wissenseinträgen.\n\nVerfügbare Wissenseinträge:\n"

  const PromptRules: string :=
    "\n\nRegeln:\n- Antworte nur aus den gegebenen Einträgen\n- Erfinde nichts hinzu\n- Verweise auf die Quellen mit [1], [2], etc.\n- Wenn die Einträge die Frage nicht beantworten können, sage das klar\n- Formuliere 1-2 mögliche Folgefragen, falls relevant\n\nAntworte im Format:\nANTWORT: [deine Antwort]\nFOLLOWUPS: [Folgefrage 1] | [Folgefrage 2]"

  /** The single user message sent to a remote provider. */
  function Prompt(question: string, context: string): string {
    PromptHead + context + "\n\nFrage: " + question + PromptRules
  }

  /** One more entry adds a separator and its block, numbered after the others. */
  lemma ContextSnoc(entries: seq<Entry>, e: Entry)
    requires entries != []
    ensures Context(entries + [e]) == Context(entries) + BlockSeparator + Block(|entries|, e)
  {
    BlocksSnoc(entries, e);
    JoinSnoc(Blocks(entries), Block(|entries|, e), BlockSeparator);
  }

  lemma BlocksSnoc(entries: seq<Entry>, e: Entry)
    ensures Blocks(entries + [e]) == Blocks(entries) + [Block(|entries|, e)]
  {
    var longer, appended := Blocks(entries + [e]), Blocks(entries) + [Block(|entries|, e)];
    forall i | 0 <= i < |longer| ensures longer[i] == appended[i] {
      if i < |entries| {
        assert (entries + [e])[i] == entries[i];
      }
    }
  }

  lemma PiecesOfFive(a: string, b: string, c: string, d: string, e: string)
    ensures Infix(b, a + b + c + d + e) && Infix(d, a + b + c + d + e)
  {
    InfixOfConcat(a, b, c + d + e);
    assert a + b + (c + d + e) == a + b + c + d + e;
    InfixOfConcat(a + b + c, d, e);
  }

  lemma ContentInBlock(k: nat, e: Entry)
    ensures Infix(e.content, Block(k, e))
  {
    var head := "[" + NatToString(k + 1) + "] Topic: " + e.topic + "\nType: " + EntryTypeName(e.entryType) + "\n";
    InfixOfConcat(head, e.content, "");
    assert head + e.content + "" == Block(k, e);
  }

  /** The prompt is grounded: it carries the question and every retrieved entry's full content. */
  lemma PromptCarriesEntries(question: string, entries: seq<Entry>, k: nat)
    requires k < |entries|
    ensures Infix(question, Prompt(question, Context(entries)))
    ensures Infix(entries[k].content, Prompt(question, Context(entries)))
  {
    var context := Context(entries);
    PiecesOfFive(PromptHead, context, "\n\nFrage: ", question, PromptRules);
    ContentInBlock(k, entries[k]);
    JoinHasItem(Blocks(entries), BlockSeparator, k);
    InfixTransitive(entries[k].content, Block(k, entries[k]), context);
    InfixTransitive(entries[k].content, context, Prompt(question, context));
  }

  // ---------------------------------------------------------------------
  // Reply parsing

  const AnswerMarker: string := "ANTWORT:"
  const FollowupsMarker: string := "FOLLOWUPS:"
  /** The end of the answer: the follow-ups marker at the start of a line. */
  const FollowupsLine: string := "\nFOLLOWUPS:"

  /** The end of the line that position `i` is on (how far `.*` reaches). */
  function LineEnd(s: string, i: nat): (j: nat)
    requires i <= |s|
    ensures i <= j <= |s|
    ensures forall k {:trigger IsLineTerminator(s[k])} :: i <= k < j ==> !IsLineTerminator(s[k])
    ensures j == |s| || IsLineTerminator(s[j])
    decreases |s| - i
  {
    if i < |s| && !IsLineTerminator(s[i]) then LineEnd(s, i + 1) else i
  }

  /** A trimmed slice of the text is part of the text. */
  lemma TrimmedSliceInText(text: string, start: nat, stop: nat)
    requires start <= stop <= |text|
    ensures Infix(Trim(text[start..stop]), text)
  {
    var body := text[start..stop];
    var a := TrimLo(body);
    TrimOccurs(body);
    OccursInSlice(text, Trim(body), start, stop, a);
    assert 0 <= start + a <= |text|;
  }

  /** A trimmed slice of a stretch in which `w` does not occur is free of `w`. */
  lemma TrimmedSliceAvoids(text: string, w: string, start: nat, stop: nat)
    requires start <= stop <= |text|
    requires forall j :: start <= j && j + |w| <= stop ==> !OccursAt(text, w, j)
    ensures !Infix(w, Trim(text[start..stop]))
  {
    var body := text[start..stop];
    var r := Trim(body);
    var a := TrimLo(body);
    assert r == body[a..a + |r|];
    SliceOfSlice(text, start, stop, a, a + |r|);
    NoOccurrenceInSlice(text, w, start + a, start + a + |r|);
  }

  /** The answer: with an `ANTWORT:` marker, the trimmed text after it (and
      after the whitespace that follows it) up to the first follow-ups line;
      without a marker, the whole reply. */
  function ParseAnswer(text: string): string {
    match IndexOf(text, AnswerMarker)
    case None => text
    case Some(k) => AnswerFrom(text, SkipWhitespace(text, k + |AnswerMarker|))
  }

  /** Where the lazy capture stops: at the first follow-ups line from `start` on, or at the end. */
  function AnswerEnd(text: string, start: nat): (stop: nat)
    requires start <= |text|
    ensures start <= stop <= |text|
  {
    match IndexOfFrom(text, FollowupsLine, start) case Some(p) => p case None => |text|
  }

  /** The captured answer from `start` on, trimmed. */
  function AnswerFrom(text: string, start: nat): string
    requires start <= |text|
  {
    Trim(text[start..AnswerEnd(text, start)])
  }

  /** Without a marker the whole reply is the answer. With one, the answer is
      trimmed, is part of the reply, and holds no follow-ups line. */
  lemma ParseAnswerSound(text: string)
    ensures !Infix(AnswerMarker, text) ==> ParseAnswer(text) == text
    ensures Infix(AnswerMarker, text) ==>
      var r := ParseAnswer(text);
      Trimmed(r) && Infix(r, text) && !Infix(FollowupsLine, r)
  {
    var m := IndexOf(text, AnswerMarker);
    if m.Some? {
      var start := SkipWhitespace(text, m.value + |AnswerMarker|);
      var stop := AnswerEnd(text, start);
      assert forall j :: start <= j && j + |FollowupsLine| <= stop ==> !OccursAt(text, FollowupsLine, j);
      TrimmedSliceInText(text, start, stop);
      TrimmedSliceAvoids(text, FollowupsLine, start, stop);
    }
  }

  /** A follow-up question as the parser yields it: on one line, with no `|`. */
  predicate FollowupText(s: string) {
    '|' !in s && forall c :: c in s ==> !IsLineTerminator(c)
  }

  /** Each piece trimmed, the empty ones dropped. */
  function CleanItems(parts: seq<string>): (r: seq<string>)
    ensures |r| <= |parts|
    ensures forall i :: 0 <= i < |r| ==> r[i] != "" && Trimmed(r[i])
  {
    if parts == [] then []
    else
      var t := Trim(parts[0]);
      (if t == "" then [] else [t]) + CleanItems(parts[1..])
  }

  /** `filter` keeps exactly the pieces whose trim is non-empty: every such
      trimmed piece is an item, and every item is the trim of a piece. */
  lemma {:induction false} CleanItemsKeeps(parts: seq<string>)
    ensures forall j :: 0 <= j < |parts| && Trim(parts[j]) != "" ==> Trim(parts[j]) in CleanItems(parts)
    ensures forall x :: x in CleanItems(parts) ==> exists j :: 0 <= j < |parts| && x == Trim(parts[j])
  {
    if parts != [] {
      CleanItemsKeeps(parts[1..]);
      var t := Trim(parts[0]);
      assert CleanItems(parts) == (if t == "" then [] else [t]) + CleanItems(parts[1..]);
      forall j | 1 <= j < |parts| && Trim(parts[j]) != ""
        ensures Trim(parts[j]) in CleanItems(parts)
      {
        assert parts[j] == parts[1..][j - 1];
      }
      forall x | x in CleanItems(parts)
        ensures exists j :: 0 <= j < |parts| && x == Trim(parts[j])
      {
        if x != t {
          assert x in CleanItems(parts[1..]);
          var j :| 0 <= j < |parts[1..]| && x == Trim(parts[1..][j]);
          assert x == Trim(parts[j + 1]);
        }
      }
    }
  }

  /** Cleaning works piece by piece, so it keeps the order of the pieces. */
  lemma {:induction false} CleanItemsAppend(a: seq<string>, b: seq<string>)
    ensures CleanItems(a + b) == CleanItems(a) + CleanItems(b)
  {
    if a != [] {
      CleanItemsAppend(a[1..], b);
      assert (a + b)[1..] == a[1..] + b;
      assert (a + b)[0] == a[0];
    } else {
      assert a + b == b;
    }
  }

  /** Trimming keeps a follow-up on one line and free of `|`. */
  lemma {:induction false} CleanItemsFollowupText(parts: seq<string>)
    requires forall j :: 0 <= j < |parts| ==> FollowupText(parts[j])
    ensures forall i :: 0 <= i < |CleanItems(parts)| ==> FollowupText(CleanItems(parts)[i])
  {
    if parts != [] {
      CleanItemsFollowupText(parts[1..]);
      var t := Trim(parts[0]);
      assert forall c :: c in t ==> c in parts[0];
    }
  }

  /** The follow-ups: with a `FOLLOWUPS:` marker, the rest of the line after
      it (and after the whitespace that follows it, which may span lines),
      split at `|`, trimmed, empty pieces dropped; without a marker, none. */
  function ParseFollowups(text: string): Option<seq<string>> {
    match IndexOf(text, FollowupsMarker)
    case None => None
    case Some(k) =>
      var start := SkipWhitespace(text, k + |FollowupsMarker|);
      Some(CleanItems(Split(text[start..LineEnd(text, start)], '|')))
  }

  /** Follow-ups are absent exactly when the marker is; each one found is
      non-empty, trimmed, on one line and free of `|`. */
  lemma ParseFollowupsSound(text: string)
    ensures ParseFollowups(text).None? <==> !Infix(FollowupsMarker, text)
    ensures ParseFollowups(text).Some? ==>
      var fs := ParseFollowups(text).value;
      forall i :: 0 <= i < |fs| ==> fs[i] != "" && Trimmed(fs[i]) && FollowupText(fs[i])
  {
    var m := IndexOf(text, FollowupsMarker);
    if m.Some? {
      var start := SkipWhitespace(text, m.value + |FollowupsMarker|);
      var line := text[start..LineEnd(text, start)];
      assert forall c :: c in line ==> !IsLineTerminator(c);
      CleanItemsFollowupText(Split(line, '|'));
    }
  }

  function ParseResponse(text: string): LlmResponse {
    LlmResponse(ParseAnswer(text), ParseFollowups(text))
  }

  /** A reply in the format the prompt asks for. */
  function FormattedReply(answer: string, followups: seq<string>): string {
    "ANTWORT: " + answer + "\nFOLLOWUPS: " + Join(followups, " | ")
  }

  /** Items as `split('|')` cuts a ` | `-joined list: the first keeps `lead`,
      later ones a leading space, all but the last a trailing space. */
  function Padded(fs: seq<string>, lead: string): (r: seq<string>)
    requires |fs| >= 1
    ensures |r| == |fs|
  {
    if |fs| == 1 then [lead + fs[0]] else [lead + fs[0] + " "] + Padded(fs[1..], " ")
  }

  lemma {:induction false} JoinPadded(fs: seq<string>, lead: string)
    requires |fs| >= 1
    ensures lead + Join(fs, " | ") == Join(Padded(fs, lead), "|")
  {
    if |fs| > 1 {
      JoinPadded(fs[1..], " ");
      var p := Padded(fs, lead);
      assert p[0] == lead + fs[0] + " " && p[1..] == Padded(fs[1..], " ");
      assert Join(p, "|") == p[0] + "|" + Join(p[1..], "|");
    }
  }

  /** No padded item holds a `|`. */
  lemma {:induction false} PaddedHasNoBar(fs: seq<string>, lead: string)
    requires |fs| >= 1 && (lead == "" || lead == " ")
    requires forall i :: 0 <= i < |fs| ==> '|' !in fs[i]
    ensures forall i :: 0 <= i < |fs| ==> '|' !in Padded(fs, lead)[i]
  {
    var p := Padded(fs, lead);
    if |fs| > 1 {
      PaddedHasNoBar(fs[1..], " ");
      assert p[0] == lead + fs[0] + " ";
      forall i | 1 <= i < |fs| ensures '|' !in p[i] {
        assert p[i] == Padded(fs[1..], " ")[i - 1];
      }
    }
  }

  /** Trimming the padded items and dropping empty ones gives the items back. */
  lemma CleanItemsCons(x: string, rest: seq<string>)
    requires Trim(x) != ""
    ensures CleanItems([x] + rest) == [Trim(x)] + CleanItems(rest)
  {
    assert ([x] + rest)[1..] == rest;
  }

  lemma {:induction false} CleanPadded(fs: seq<string>, lead: string)
    requires |fs| >= 1 && (lead == "" || lead == " ")
    requires forall i :: 0 <= i < |fs| ==> fs[i] != "" && Trimmed(fs[i])
    ensures CleanItems(Padded(fs, lead)) == fs
  {
    var p := Padded(fs, lead);
    var x := p[0];
    if |fs| == 1 {
      assert x == lead + fs[0] + "" by { assert p == [lead + fs[0]]; }
      TrimPadded(fs[0], lead, "");
      assert p == [x] + [];
      CleanItemsCons(x, []);
    } else {
      var rest := Padded(fs[1..], " ");
      assert x == lead + fs[0] + " " && p == [x] + rest;
      TrimPadded(fs[0], lead, " ");
      CleanPadded(fs[1..], " ");
      CleanItemsCons(x, rest);
      assert fs == [fs[0]] + fs[1..];
    }
  }

  lemma {:induction false} JoinedFollowupsOneLine(fs: seq<string>)
    requires forall i :: 0 <= i < |fs| ==> FollowupText(fs[i])
    ensures forall c :: c in Join(fs, " | ") ==> !IsLineTerminator(c)
  {
    if |fs| > 1 {
      JoinedFollowupsOneLine(fs[1..]);
      assert Join(fs, " | ") == fs[0] + " | " + Join(fs[1..], " | ");
    }
  }

  /** Text free of `FOLLOWUPS:` is free of `\nFOLLOWUPS:` too. */
  lemma NoMarkerNoFollowupsLine(s: string)
    requires !Infix(FollowupsMarker, s)
    ensures !Infix(FollowupsLine, s)
  {
    if Infix(FollowupsLine, s) {
      var q :| 0 <= q <= |s| && OccursAt(s, FollowupsLine, q);
      assert s[q + 1..q + 11] == s[q..q + 11][1..];
      assert OccursAt(s, FollowupsMarker, q + 1);
      assert false;
    }
  }

  /** In a formatted reply, no follow-ups line starts inside the answer. */
  lemma NoFollowupsLineInAnswer(answer: string, followups: seq<string>)
    requires !Infix(FollowupsLine, answer)
    ensures var text := FormattedReply(answer, followups);
      && 9 + |answer| + |FollowupsLine| <= |text|
      && forall j :: 9 <= j < 9 + |answer| ==> !OccursAt(text, FollowupsLine, j)
  {
    var text := FormattedReply(answer, followups);
    var n := |answer|;
    assert text == "ANTWORT: " + answer + "\nFOLLOWUPS: " + Join(followups, " | ");
    assert text[9 + n] == '\n';
    assert text[9..9 + n] == answer;
    var lo: nat, hi: nat := 9, 9 + n;
    forall j | 9 <= j < 9 + n ensures !OccursAt(text, FollowupsLine, j) {
      if OccursAt(text, FollowupsLine, j) {
        if j + 11 <= 9 + n {
          OccursInsideSlice(text, FollowupsLine, lo, hi, j);
          assert false;
        } else {
          CoveredChar(text, FollowupsLine, j, 9 + n);
          assert false;
        }
      }
    }
  }

  /** A formatted reply opens with the answer marker, one space and the answer. */
  lemma FormattedAnswerStart(answer: string, followups: seq<string>)
    requires answer != "" && Trimmed(answer)
    ensures var text := FormattedReply(answer, followups);
      && 9 + |answer| <= |text|
      && IndexOf(text, AnswerMarker) == Some(0)
      && SkipWhitespace(text, 8) == 9
      && text[9..9 + |answer|] == answer
  {
    var text := FormattedReply(answer, followups);
    var n := |answer|;
    assert text == "ANTWORT: " + answer + "\nFOLLOWUPS: " + Join(followups, " | ");
    assert text[..8] == AnswerMarker;
    assert OccursAt(text, AnswerMarker, 0);
    assert text[8] == ' ' && text[9] == answer[0];
    assert SkipWhitespace(text, 9) == 9;
    assert text[9..9 + n] == answer;
  }

  /** In a formatted reply the answer ends where the follow-ups line begins. */
  lemma FormattedAnswerEnd(answer: string, followups: seq<string>)
    requires !Infix(FollowupsLine, answer)
    ensures var text := FormattedReply(answer, followups);
      && 9 + |answer| <= |text|
      && AnswerEnd(text, 9) == 9 + |answer|
  {
    var text := FormattedReply(answer, followups);
    var n := |answer|;
    assert text == "ANTWORT: " + answer + "\nFOLLOWUPS: " + Join(followups, " | ");
    assert text[9 + n..9 + n + 11] == FollowupsLine;
    NoFollowupsLineInAnswer(answer, followups);
    FirstOccurrenceAt(text, FollowupsLine, 9, 9 + n);
  }

  /** The answer part of a formatted reply parses back to the answer. */
  lemma FormattedAnswerParses(answer: string, followups: seq<string>)
    requires answer != "" && Trimmed(answer) && !Infix(FollowupsLine, answer)
    ensures ParseAnswer(FormattedReply(answer, followups)) == answer
  {
    var text := FormattedReply(answer, followups);
    var n := |answer|;
    FormattedAnswerStart(answer, followups);
    FormattedAnswerEnd(answer, followups);
    TrimOfTrimmed(answer);
    ParseAnswerAt(text, 0, 9);
    AnswerFromTo(text, 9, 9 + n);
  }

  /** The reply `ANTWORT: \nFOLLOWUPS: a`: the marker opens it, and the
      whitespace after the marker runs on to `FOLLOWUPS:`. */
  lemma EmptyReplyStart(text: string)
    requires text == "ANTWORT: \nFOLLOWUPS: a"
    ensures IndexOf(text, AnswerMarker) == Some(0)
    ensures SkipWhitespace(text, 8) == 10
  {
    assert OccursAt(text, AnswerMarker, 0);
    FirstOccurrenceAt(text, AnswerMarker, 0, 0);
    assert text[10] == 'F' && SkipWhitespace(text, 10) == 10;
    assert text[9] == '\n' && text[8] == ' ';
  }

  /** In that reply no follow-ups line starts at or after `FOLLOWUPS:`. */
  lemma EmptyReplyEnd(text: string)
    requires text == "ANTWORT: \nFOLLOWUPS: a"
    ensures AnswerEnd(text, 10) == |text|
    ensures text[10..] == "FOLLOWUPS: a"
  {
    assert |text| == 22 && text[10] == 'F' && text[11] == 'O';
    forall j | 10 <= j <= |text| ensures !OccursAt(text, FollowupsLine, j) {
      if j + |FollowupsLine| <= |text| {
        assert text[j..j + |FollowupsLine|][0] == text[j] != '\n';
      }
    }
  }

  /** The answer parsed from that reply is its follow-ups line. */
  lemma EmptyReplyAnswer(text: string)
    requires text == "ANTWORT: \nFOLLOWUPS: a"
    ensures ParseAnswer(text) == "FOLLOWUPS: a"
  {
    EmptyReplyStart(text);
    EmptyReplyEnd(text);
    ParseAnswerAt(text, 0, 10);
    TrimOfTrimmed("FOLLOWUPS: a");
  }

  /** Why the round trip needs a non-empty answer: with an empty one, the
      whitespace skipped after `ANTWORT:` runs on across the line break, the
      capture starts at `FOLLOWUPS:` itself, and no follow-ups line is left to
      end it, so the follow-ups line becomes the answer. */
  lemma EmptyAnswerTakesFollowupsLine()
    ensures ParseAnswer(FormattedReply("", ["a"])) == "FOLLOWUPS: a"
  {
    var text := FormattedReply("", ["a"]);
    assert text == "ANTWORT: \nFOLLOWUPS: a";
    EmptyReplyAnswer(text);
  }

  /** Where the follow-ups are read when the answer itself says `FOLLOWUPS:`. */
  lemma MarkerInAnswerReply(text: string)
    requires text == "ANTWORT: " + "see " + FollowupsMarker + " x" + "\nFOLLOWUPS: " + "a"
    ensures IndexOf(text, FollowupsMarker) == Some(13)
    ensures SkipWhitespace(text, 23) == 24 && LineEnd(text, 24) == 25
  {
    var head := "ANTWORT: " + "see ";
    assert |head| == 13 && 'F' !in head;
    forall j | 0 <= j < 13 ensures !OccursAt(text, FollowupsMarker, j) {
      assert text[j] == head[j];
      assert text[j..j + |FollowupsMarker|][0] == text[j];
    }
    assert text[13..23] == FollowupsMarker;
    assert OccursAt(text, FollowupsMarker, 13);
    assert Infix(FollowupsMarker, text);
    assert text[23] == ' ' && text[24] == 'x' && text[25] == '\n';
  }

  /** The follow-ups line read from that reply is the rest of the answer's line. */
  lemma MarkerInAnswerLine(text: string)
    requires text == "ANTWORT: " + "see " + FollowupsMarker + " x" + "\nFOLLOWUPS: " + "a"
    ensures ParseFollowups(text) == Some(CleanItems(Split("x", '|')))
  {
    MarkerInAnswerReply(text);
    assert text[24..25] == "x";
  }

  lemma CleanSingleItem()
    ensures CleanItems(Split("x", '|')) == ["x"]
  {
    assert Split("x", '|') == ["x"];
    TrimOfTrimmed("x");
    assert ["x"][1..] == [];
  }

  /** Why the round trip needs an answer free of `FOLLOWUPS:`: the follow-ups
      regex takes the first marker, so one inside the answer's own text
      (here `see FOLLOWUPS: x`) is read instead of the follow-ups line. */
  lemma MarkerInAnswerTakesFollowups()
    ensures ParseFollowups(FormattedReply("see " + FollowupsMarker + " x", ["a"])) == Some(["x"])
  {
    var text := FormattedReply("see " + FollowupsMarker + " x", ["a"]);
    assert Join(["a"], " | ") == "a";
    assert text == "ANTWORT: " + "see " + FollowupsMarker + " x" + "\nFOLLOWUPS: " + "a";
    MarkerInAnswerLine(text);
    CleanSingleItem();
  }

  /** With the answer marker at `k`, the answer is captured from after the following whitespace. */
  lemma ParseAnswerAt(text: string, k: nat, start: nat)
    requires k + |AnswerMarker| <= |text|
    requires IndexOf(text, AnswerMarker) == Some(k)
    requires SkipWhitespace(text, k + |AnswerMarker|) == start
    ensures ParseAnswer(text) == AnswerFrom(text, start)
  {
    match IndexOf(text, AnswerMarker)
    case Some(k') =>
      assert k' == k;
      assert ParseAnswer(text) == AnswerFrom(text, SkipWhitespace(text, k' + |AnswerMarker|));
  }

  /** The captured answer, once its end is located. */
  lemma AnswerFromTo(text: string, start: nat, stop: nat)
    requires start <= stop <= |text|
    requires AnswerEnd(text, start) == stop
    ensures AnswerFrom(text, start) == Trim(text[start..stop])
  {
  }

  /** The first `FOLLOWUPS:` of a formatted reply is the one after the answer. */
  lemma FormattedFollowupsMarker(answer: string, followups: seq<string>)
    requires !Infix(FollowupsMarker, answer)
    ensures IndexOf(FormattedReply(answer, followups), FollowupsMarker) == Some(10 + |answer|)
  {
    var text := FormattedReply(answer, followups);
    var n := |answer|;
    assert text == "ANTWORT: " + answer + "\nFOLLOWUPS: " + Join(followups, " | ");
    assert text[10 + n..20 + n] == FollowupsMarker;
    assert text[9..9 + n] == answer;
    assert text[8] == ' ' && text[9 + n] == '\n';
    var lo: nat, hi: nat := 9, 9 + n;
    forall j | 0 <= j < 10 + n ensures !OccursAt(text, FollowupsMarker, j) {
      if OccursAt(text, FollowupsMarker, j) {
        if j <= 8 {
          CoveredChar(text, FollowupsMarker, j, 8);
          assert false;
        } else if j + 10 <= 9 + n {
          OccursInsideSlice(text, FollowupsMarker, lo, hi, j);
          assert false;
        } else {
          CoveredChar(text, FollowupsMarker, j, 9 + n);
          assert false;
        }
      }
    }
    FirstOccurrenceAt(text, FollowupsMarker, 0, 10 + n);
  }

  /** The line after the marker of a formatted reply is exactly the joined follow-ups. */
  lemma FormattedFollowupsLine(answer: string, followups: seq<string>)
    requires forall i :: 0 <= i < |followups| ==>
               followups[i] != "" && Trimmed(followups[i]) && FollowupText(followups[i])
    ensures var text := FormattedReply(answer, followups);
      && SkipWhitespace(text, 20 + |answer|) == 21 + |answer|
      && LineEnd(text, 21 + |answer|) == |text|
      && text[21 + |answer|..|text|] == Join(followups, " | ")
  {
    var text := FormattedReply(answer, followups);
    var n := |answer|;
    var joined := Join(followups, " | ");
    assert text == ("ANTWORT: " + answer + "\nFOLLOWUPS: ") + joined;
    assert text[21 + n..|text|] == joined;
    assert text[20 + n] == ' ';
    if followups != [] {
      assert joined[0] == followups[0][0];
      assert text[21 + n] == followups[0][0];
    }
    assert SkipWhitespace(text, 21 + n) == 21 + n;
    JoinedFollowupsOneLine(followups);
  }

  /** Splitting the joined follow-ups at `|` and cleaning the pieces gives them back. */
  lemma JoinedFollowupsParse(joined: string, followups: seq<string>)
    requires forall i :: 0 <= i < |followups| ==>
               followups[i] != "" && Trimmed(followups[i]) && FollowupText(followups[i])
    requires joined == Join(followups, " | ")
    ensures CleanItems(Split(joined, '|')) == followups
  {
    if followups == [] {
      assert Split(joined, '|') == [""];
      assert CleanItems([""]) == [] by { assert Trim("") == ""; }
    } else {
      var pieces := Padded(followups, "");
      JoinPadded(followups, "");
      assert joined == Join(pieces, ['|']) by { assert "" + joined == joined; }
      PaddedHasNoBar(followups, "");
      SplitJoin(pieces, '|');
      CleanPadded(followups, "");
    }
  }

  /** The follow-ups part of a formatted reply parses back to the follow-ups. */
  lemma FormattedFollowupsParse(answer: string, followups: seq<string>)
    requires !Infix(FollowupsMarker, answer)
    requires forall i :: 0 <= i < |followups| ==>
               followups[i] != "" && Trimmed(followups[i]) && FollowupText(followups[i])
    ensures ParseFollowups(FormattedReply(answer, followups)) == Some(followups)
  {
    var text := FormattedReply(answer, followups);
    var n := |answer|;
    FormattedFollowupsMarker(answer, followups);
    FormattedFollowupsLine(answer, followups);
    JoinedFollowupsParse(text[21 + n..|text|], followups);
    ParseFollowupsAt(text, 10 + n, 21 + n, followups);
  }

  /** How the follow-ups are read off once the marker and the line are located. */
  lemma ParseFollowupsAt(text: string, k: nat, m: nat, fs: seq<string>)
    requires k + |FollowupsMarker| <= |text| && m <= |text|
    requires IndexOf(text, FollowupsMarker) == Some(k)
    requires SkipWhitespace(text, k + |FollowupsMarker|) == m
    requires LineEnd(text, m) == |text|
    requires CleanItems(Split(text[m..|text|], '|')) == fs
    ensures ParseFollowups(text) == Some(fs)
  {
  }

  /** Round trip: a reply written in the prompt's format parses back to the
      answer and follow-ups it was written from. */
  lemma ParseFormattedReply(answer: string, followups: seq<string>)
    requires answer != "" && Trimmed(answer) && !Infix(FollowupsMarker, answer)
    requires forall i :: 0 <= i < |followups| ==>
               followups[i] != "" && Trimmed(followups[i]) && FollowupText(followups[i])
    ensures ParseResponse(FormattedReply(answer, followups)) == LlmResponse(answer, Some(followups))
  {
    NoMarkerNoFollowupsLine(answer);
    FormattedAnswerParses(answer, followups);
    FormattedFollowupsParse(answer, followups);
  }

  // ---------------------------------------------------------------------
  // Providers

  /** The outcome of the single HTTP request a remote provider makes. */
  datatype Reply = Completion(text: string) | HttpFailure(statusText: string)

  /** The vendor name remote errors start with. */
  function VendorName(p: Provider): string
    requires !p.Mock?
  {
    if p.Anthropic? then "Anthropic" else "OpenAI"
  }

  /** A remote provider: no request without entries; otherwise one request
      with the prompt, whose failure is an error and whose reply is parsed. */
  function RemoteAnswer(p: Provider, question: string, entries: seq<Entry>,
                        remote: (Provider, string) -> Reply): Result<LlmResponse, string>
    requires !p.Mock?
  {
    if entries == [] then Ok(LlmResponse(NoEntriesMessage, None))
    else
      match remote(p, Prompt(question, Context(entries)))
      case HttpFailure(status) => Err(VendorName(p) + " API error: " + status)
      case Completion(text) => Ok(ParseResponse(text))
  }

  /** A remote provider fails exactly when its request fails, with the
      vendor's name and the HTTP status text; otherwise it answers with the
      parsed reply, or the fixed message when nothing was retrieved. */
  lemma RemoteAnswerSpec(p: Provider, question: string, entries: seq<Entry>,
                         remote: (Provider, string) -> Reply)
    requires !p.Mock?
    ensures var r, reply := RemoteAnswer(p, question, entries, remote), remote(p, Prompt(question, Context(entries)));
      && (entries == [] ==> r == Ok(LlmResponse(NoEntriesMessage, None)))
      && (r.Err? <==> entries != [] && reply.HttpFailure?)
      && (r.Err? ==> r.error == VendorName(p) + " API error: " + reply.statusText)
      && (r.Ok? && entries != [] ==> r.value == ParseResponse(reply.text))
  {
  }

  const MockHeader: string := "Basierend auf den gespeicherten Einträgen:\n\n"
  const MockNote: string := "\n(Mock-Modus: Für intelligente Antworten füge einen API-Key hinzu)"
  const MockExcerptLength: nat := 200
  const MockEntryLimit: nat := 3

  /** One cited entry of the mock answer: its number and the first 200 characters. */
  function MockLine(i: nat, e: Entry): string {
    "[" + NatToString(i + 1) + "] " + Excerpt(e.content, MockExcerptLength) + "\n\n"
  }

  /** The cited lines of `es`, in order. */
  function MockLines(es: seq<Entry>): string
    decreases |es|
  {
    if es == [] then "" else MockLines(es[..|es| - 1]) + MockLine(|es| - 1, es[|es| - 1])
  }

  function MockFollowups(entries: seq<Entry>): Option<seq<string>>
    requires entries != []
  {
    if |entries| > 1 then
      Some(["Was gibt es noch zu " + entries[0].topic + "?", "Kannst du mehr Details geben?"])
    else None
  }

  /** What the mock provider answers: the header, the first three entries
      cited, and a note that no API key is configured. */
  function MockResponse(entries: seq<Entry>): LlmResponse {
    if entries == [] then LlmResponse(NoEntriesMessage, None)
    else
      LlmResponse(MockHeader + MockLines(entries[..Min(MockEntryLimit, |entries|)]) + MockNote,
                  MockFollowups(entries))
  }

  /** Citing one more entry appends its line. */
  lemma MockLinesSnoc(es: seq<Entry>, i: nat)
    requires i < |es|
    ensures MockLines(es[..i + 1]) == MockLines(es[..i]) + MockLine(i, es[i])
  {
    assert es[..i + 1][..i] == es[..i];
  }

  /** The `forEach` of the mock provider: one cited line per entry, in order. */
  method CiteLines(relevant: seq<Entry>) returns (lines: string)
    ensures lines == MockLines(relevant)
  {
    lines := "";
    var i := 0;
    while i < |relevant|
      invariant 0 <= i <= |relevant|
      invariant lines == MockLines(relevant[..i])
    {
      MockLinesSnoc(relevant, i);
      lines := lines + MockLine(i, relevant[i]);
      i := i + 1;
    }
    assert relevant[..i] == relevant;
  }

  /** The mock provider, building its answer line by line. */
  method MockGenerateAnswer(question: string, entries: seq<Entry>) returns (r: LlmResponse)
    ensures r == MockResponse(entries)
  {
    if |entries| == 0 {
      return LlmResponse(NoEntriesMessage, None);
    }
    var relevant := entries[..Min(MockEntryLimit, |entries|)];
    var lines := CiteLines(relevant);
    var answer := MockHeader + lines + MockNote;
    var followups: Option<seq<string>> := None;
    if |entries| > 1 {
      followups := Some(["Was gibt es noch zu " + entries[0].topic + "?", "Kannst du mehr Details geben?"]);
    }
    r := LlmResponse(answer, followups);
  }

  /** Every cited line is part of the cited lines. */
  lemma {:induction false} MockLinesCite(es: seq<Entry>, k: nat)
    requires k < |es|
    ensures Infix(MockLine(k, es[k]), MockLines(es))
  {
    var last := |es| - 1;
    var prefix := es[..last];
    if k == last {
      InfixOfConcat(MockLines(prefix), MockLine(k, es[k]), "");
      assert MockLines(prefix) + MockLine(k, es[k]) + "" == MockLines(es);
    } else {
      MockLinesCite(prefix, k);
      InfixOfConcat("", MockLines(prefix), MockLine(last, es[last]));
      assert "" + MockLines(prefix) + MockLine(last, es[last]) == MockLines(es);
      InfixTransitive(MockLine(k, prefix[k]), MockLines(prefix), MockLines(es));
    }
  }

  /** The mock answer cites each of the first three entries, numbered from 1,
      by the first 200 characters of its content. */
  lemma MockCitesFirstEntries(entries: seq<Entry>, k: nat)
    requires k < |entries| && k < MockEntryLimit
    ensures Infix(MockLine(k, entries[k]), MockResponse(entries).answer)
  {
    var relevant := entries[..Min(MockEntryLimit, |entries|)];
    MockLinesCite(relevant, k);
    InfixOfConcat(MockHeader, MockLines(relevant), MockNote);
    InfixTransitive(MockLine(k, entries[k]), MockLines(relevant), MockResponse(entries).answer);
  }

  /** Entries after the third change nothing in the mock answer, and the
      follow-ups only depend on whether there is more than one entry and on
      the first entry's topic. */
  lemma MockIgnoresLaterEntries(entries: seq<Entry>, more: seq<Entry>)
    requires |entries| >= MockEntryLimit
    ensures MockResponse(entries + more) == MockResponse(entries)
  {
    assert (entries + more)[..MockEntryLimit] == entries[..MockEntryLimit];
  }

  /** The mock answer's frame, and follow-ups exactly when more than one entry was found. */
  lemma MockResponseShape(entries: seq<Entry>)
    requires entries != []
    ensures var r := MockResponse(entries);
      && r.answer[..|MockHeader|] == MockHeader
      && r.answer[|r.answer| - |MockNote|..] == MockNote
      && (r.followups.Some? <==> |entries| > 1)
      && (r.followups.Some? ==> |r.followups.value| == 2 && Infix(entries[0].topic, r.followups.value[0]))
  {
    var r := MockResponse(entries);
    if |entries| > 1 {
      InfixOfConcat("Was gibt es noch zu ", entries[0].topic, "?");
    }
  }

  /** A provider's answer to a question about the retrieved entries. */
  function ProviderAnswer(p: Provider, question: string, entries: seq<Entry>,
                          remote: (Provider, string) -> Reply): Result<LlmResponse, string>
  {
    if p.Mock? then Ok(MockResponse(entries)) else RemoteAnswer(p, question, entries, remote)
  }

  /** Every provider gives the same answer when nothing was retrieved, and
      asks no remote service for it. */
  lemma NoEntriesSameForAllProviders(p: Provider, question: string, remote: (Provider, string) -> Reply)
    ensures ProviderAnswer(p, question, [], remote) == Ok(LlmResponse(NoEntriesMessage, None))
  {
  }

  /** `generateAnswer` on the selected provider. */
  method GenerateAnswer(p: Provider, question: string, entries: seq<Entry>,
                        remote: (Provider, string) -> Reply) returns (r: Result<LlmResponse, string>)
    ensures r == ProviderAnswer(p, question, entries, remote)
  {
    if p.Mock? {
      var response := MockGenerateAnswer(question, entries);
      r := Ok(response);
    } else {
      r := RemoteAnswer(p, question, entries, remote);
    }
  }
}
