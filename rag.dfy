/**
 * Prompt and answer assembly of src/rag.py: the context built from search results,
 * the message list sent to the language model, and the packaged answer.
 *
 * The language model is an oracle passed to the methods that call it: a function from
 * the message list to a completion or a failure.
 */
module Rag {
  import opened Wrappers
  import opened Text
  import opened Records
  import opened Embeddings

  /** The instructions sent as the first message of every conversation (lines 11-18). */
  const SystemPrompt: string :=
    "You are RAGify, an advanced API Documentation Explorer using retrieval-augmented generation. Help developers with clear, practical guidance.\n\nGuidelines:\n- Base answers on provided documentation\n- Include code examples when available  \n- Be concise but comprehensive\n- Focus on practical implementation\n- If unsure, say so clearly"

  /** The context when the search found nothing (line 43). */
  const NoDocumentation: string := "No relevant documentation found."
  /** The answer when the search found nothing (line 59). */
  const NoDocumentationLoaded: string := "No relevant documentation found. Please load the documentation first."
  /** What a failed model call is reported as, followed by the error text (line 40). */
  const ErrorPrefix: string := "Error generating response: "

  /** How many results go into the context and the sources (lines 46, 66). */
  const TopResults: nat := 3
  /** How many characters of a result's content go into the context (line 47). */
  const ContentLimit: nat := 400
  /** How many history messages are replayed (line 24). */
  const HistoryLimit: nat := 4
  /** How many neighbours are asked of the store (line 55). */
  const SearchCount: int := 5

  datatype Message = Message(role: string, content: string)

  /** The model call's outcome: the reply text, or the text of the exception it raised. */
  datatype Completion = Completed(content: string) | CallFailed(error: string)

  /** One entry of the answer's `sources` list (lines 68-73). */
  datatype Source = Source(source: string, url: string, title: string, similarity: real)

  /** What `search_and_respond` returns. */
  datatype Answer = Answer(response: string, sources: seq<Source>)

  /** Python's `s[:n]`: the first `n` characters, or all of them. */
  function Truncate(s: string, n: nat): (r: string)
    ensures r <= s && |r| == Min(n, |s|)
  {
    if |s| <= n then s else s[..n]
  }

  function Digit(d: nat): char
    requires d < 10
  {
    "0123456789"[d]
  }

  /** `str(n)` for a natural number: its decimal digits. */
  function NumberText(n: nat): (r: string)
    ensures r != [] && forall c :: c in r ==> '0' <= c <= '9'
    ensures n > 0 ==> r[0] != '0'
    ensures |r| > 1 ==> r[0] != '0'
    decreases n
  {
    if n < 10 then [Digit(n)] else NumberText(n / 10) + [Digit(n % 10)]
  }

  /** The number a string of decimal digits denotes. */
  function DecimalValue(s: string): nat
    decreases |s|
  {
    if s == [] then 0
    else
      var c := s[|s| - 1];
      DecimalValue(s[..|s| - 1]) * 10 + (if '0' <= c <= '9' then (c as int - '0' as int) else 0)
  }

  /** The decimal text of a number denotes that number. */
  lemma {:induction false} NumberTextRoundTrip(n: nat)
    ensures DecimalValue(NumberText(n)) == n
    decreases n
  {
    var r := NumberText(n);
    if n >= 10 {
      NumberTextRoundTrip(n / 10);
      assert r[..|r| - 1] == NumberText(n / 10);
    }
  }

  /** The header line of the `i`-th context entry (line 50). */
  function EntryHeader(i: nat, source: string, url: string): string {
    "Source " + NumberText(i) + " (" + source + "):\nURL: " + url + "\nContent: "
  }

  /** The `i`-th context entry for a search result, with the metadata defaults (lines 47-50). */
  function ContextEntry(i: nat, r: SearchResult): string {
    EntryHeader(i, r.metadata.source.GetOr("Unknown"), r.metadata.url.GetOr(""))
      + Truncate(r.content, ContentLimit) + "\n"
  }

  /** The entries for the first three results, numbered from 1 (line 46). */
  function ContextEntries(docs: seq<SearchResult>): seq<string> {
    seq(Min(TopResults, |docs|), k requires 0 <= k < Min(TopResults, |docs|) => ContextEntry(k + 1, docs[k]))
  }

  /** `_prepare_context`: the entries joined by newlines, or the fixed text when there are none. */
  function PrepareContext(docs: seq<SearchResult>): (context: string)
    ensures context == NoDocumentation <==> docs == []
  {
    if docs == [] then NoDocumentation
    else
      var entries := ContextEntries(docs);
      var context := Join("\n", entries);
      JoinStartsWithFirst("\n", entries);
      assert entries[0][0] == 'S';
      assert context[0] != NoDocumentation[0];
      context
  }

  /** The last at most four history messages, in their original order (line 24). */
  function Recent(history: seq<Message>): (r: seq<Message>)
    ensures |r| == Min(HistoryLimit, |history|)
    ensures history == history[..|history| - |r|] + r
  {
    history[|history| - Min(HistoryLimit, |history|)..]
  }

  /** The question turn: the query and the documentation context (lines 26-29). */
  function UserTurn(query: string, context: string): (turn: Message)
    ensures turn.role == "user"
    ensures "Question: " + query + "\n\nDocumentation:\n" + context <= turn.content
  {
    Message("user", "Question: " + query + "\n\nDocumentation:\n" + context + "\n\nAnswer based on the documentation:")
  }

  /** The message list sent to the model (lines 23-29). */
  function Conversation(systemPrompt: string, history: seq<Message>, turn: Message): seq<Message> {
    [Message("system", systemPrompt)] + Recent(history) + [turn]
  }

  /** What `generate_response` returns for a completion (lines 38-40). */
  function Reply(c: Completion): string {
    match c
    case Completed(content) => content
    case CallFailed(error) => ErrorPrefix + error
  }

  /** The `sources` of an answer: the first three results, with metadata defaults (lines 65-73). */
  function Sources(docs: seq<SearchResult>): seq<Source> {
    seq(Min(TopResults, |docs|), k requires 0 <= k < Min(TopResults, |docs|) =>
      var m := docs[k].metadata;
      Source(m.source.GetOr("Unknown"), m.url.GetOr(""), m.title.GetOr(""), docs[k].similarity))
  }

  /**
   * The conversation is the system prompt, then the last at most four history messages
   * in order, then the question turn.
   */
  lemma ConversationShape(systemPrompt: string, history: seq<Message>, turn: Message)
    ensures var m := Conversation(systemPrompt, history, turn);
      |m| == 2 + Min(HistoryLimit, |history|)
      && m[0] == Message("system", systemPrompt)
      && m[|m| - 1] == turn
      && history == history[..|history| - (|m| - 2)] + m[1..|m| - 1]
  {
    var m := Conversation(systemPrompt, history, turn);
    assert m[1..|m| - 1] == Recent(history);
  }

  lemma ConversationBuilt(systemPrompt: string, history: seq<Message>, turn: Message, messages: seq<Message>)
    requires messages == [Message("system", systemPrompt)] + (if history != [] then Recent(history) else []) + [turn]
    ensures messages == Conversation(systemPrompt, history, turn)
  {
  }

  /** Only the first three results reach the context; the rest are ignored. */
  lemma ContextIgnoresLaterResults(docs: seq<SearchResult>)
    ensures PrepareContext(docs) == PrepareContext(docs[..Min(TopResults, |docs|)])
  {
    if docs != [] {
      assert ContextEntries(docs) == ContextEntries(docs[..Min(TopResults, |docs|)]);
    }
  }

  /**
   * A non-empty context is the entries joined by newlines: entry k sits at its offset,
   * a newline follows every entry but the last, and the last entry ends the context.
   */
  lemma ContextJoinsEntries(docs: seq<SearchResult>, k: nat)
    requires docs != [] && k < |ContextEntries(docs)|
    ensures var context, entries := PrepareContext(docs), ContextEntries(docs);
      var off := JoinOffset("\n", entries, k);
      && off + |entries[k]| <= |context|
      && context[off..off + |entries[k]|] == entries[k]
      && (k + 1 < |entries| ==> off + |entries[k]| < |context| && context[off + |entries[k]|] == '\n')
      && (k + 1 == |entries| ==> off + |entries[k]| == |context|)
  {
    var entries := ContextEntries(docs);
    JoinPlacesParts("\n", entries, k);
    if k + 1 < |entries| {
      var context, off := PrepareContext(docs), JoinOffset("\n", entries, k);
      assert context[off + |entries[k]|..off + |entries[k]| + 1] == "\n";
    }
  }

  /** The context opens with the entry of the best result. */
  lemma ContextStartsWithBestResult(docs: seq<SearchResult>)
    requires docs != []
    ensures ContextEntry(1, docs[0]) <= PrepareContext(docs)
  {
    ContextJoinsEntries(docs, 0);
  }

  /**
   * The retrieved text reaches the prompt: the first 400 characters of each of the first
   * three results appear in the context, right after that entry's header.
   */
  lemma ContextQuotesContent(docs: seq<SearchResult>, k: nat)
    requires k < Min(TopResults, |docs|)
    ensures var header := EntryHeader(k + 1, docs[k].metadata.source.GetOr("Unknown"), docs[k].metadata.url.GetOr(""));
      var excerpt := Truncate(docs[k].content, ContentLimit);
      var off := JoinOffset("\n", ContextEntries(docs), k) + |header|;
      off + |excerpt| <= |PrepareContext(docs)| && PrepareContext(docs)[off..off + |excerpt|] == excerpt
  {
    var entries := ContextEntries(docs);
    ContextJoinsEntries(docs, k);
    var header := EntryHeader(k + 1, docs[k].metadata.source.GetOr("Unknown"), docs[k].metadata.url.GetOr(""));
    var excerpt := Truncate(docs[k].content, ContentLimit);
    assert entries[k] == header + excerpt + "\n";
    InnerSlice(PrepareContext(docs), JoinOffset("\n", entries, k), header, excerpt, "\n");
  }

  /** A string found at offset `a` of `s` finds each of its pieces at the matching offset. */
  lemma InnerSlice(s: string, a: nat, h: string, x: string, y: string)
    requires a + |h + x + y| <= |s| && s[a..a + |h + x + y|] == h + x + y
    ensures a + |h| + |x| <= |s| && s[a + |h|..a + |h| + |x|] == x
  {
    var w := h + x + y;
    forall j | 0 <= j < |x|
      ensures s[a + |h| + j] == x[j]
    {
      assert s[a + |h| + j] == s[a..a + |w|][|h| + j] == w[|h| + j];
    }
  }

  /**
   * The answer's sources are the results quoted in the context, in the same order:
   * the k-th entry is numbered k + 1 and names the k-th source's label and URL, followed
   * by at most 400 leading characters of that result's content.
   */
  lemma SourcesMatchContext(docs: seq<SearchResult>)
    ensures |Sources(docs)| == |ContextEntries(docs)| == Min(TopResults, |docs|)
    ensures forall k :: 0 <= k < |Sources(docs)| ==>
      ContextEntries(docs)[k]
        == EntryHeader(k + 1, Sources(docs)[k].source, Sources(docs)[k].url) + Truncate(docs[k].content, ContentLimit) + "\n"
    ensures forall k :: 0 <= k < |Sources(docs)| ==>
      Sources(docs)[k].title == docs[k].metadata.title.GetOr("") && Sources(docs)[k].similarity == docs[k].similarity
  {
  }

  /** A failed model call is reported as text starting with the error prefix, never raised. */
  lemma FailedCallReported(error: string)
    ensures ErrorPrefix <= Reply(CallFailed(error))
    ensures Reply(CallFailed(error))[|ErrorPrefix|..] == error
  {
  }

  class SmartApiAssistant {
    /** The store searched for every question. */
    const manager: EmbeddingsManager
    /** The instructions sent first, set once at construction. */
    const systemPrompt: string

    constructor(manager: EmbeddingsManager)
      ensures this.manager == manager && systemPrompt == SystemPrompt
    {
      this.manager := manager;
      systemPrompt := SystemPrompt;
    }

    /**
     * `generate_response`: builds the message list in place, asks the model, and
     * returns its reply or the reported error (lines 20-40).
     */
    method GenerateResponse(query: string, docs: seq<SearchResult>, history: seq<Message>,
                            complete: seq<Message> -> Completion) returns (response: string)
      ensures response == Reply(complete(Conversation(systemPrompt, history, UserTurn(query, PrepareContext(docs)))))
    {
      var context := PrepareContext(docs);
      var messages := [Message("system", systemPrompt)];
      if history != [] {
        messages := messages + Recent(history);
      }
      var turn := UserTurn(query, context);
      messages := messages + [turn];
      ConversationBuilt(systemPrompt, history, turn, messages);
      var completion := complete(messages);
      match completion
      case Completed(content) =>
        response := content;
      case CallFailed(error) =>
        response := ErrorPrefix + error;
    }

    /**
     * `search_and_respond`: searches for five neighbours; with none, answers with the
     * fixed text and no sources, otherwise with the model's reply and the top three
     * sources (lines 54-75).
     */
    method SearchAndRespond(query: string, history: seq<Message>, complete: seq<Message> -> Completion)
      returns (answer: Answer)
      ensures var docs := SearchResults(manager.nearest(manager.embed(query), SearchCount, manager.collection));
        answer == if docs == [] then Answer(NoDocumentationLoaded, [])
                  else Answer(Reply(complete(Conversation(systemPrompt, history, UserTurn(query, PrepareContext(docs))))),
                              Sources(docs))
    {
      var docs := manager.SearchSimilar(query, SearchCount);
      if docs == [] {
        return Answer(NoDocumentationLoaded, []);
      }
      var response := GenerateResponse(query, docs, history, complete);
      answer := Answer(response, Sources(docs));
    }
  }
}
