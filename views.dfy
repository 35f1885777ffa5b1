/**
 * The memory endpoints: the response envelope, the record store and its queries, context
 * injection, listing, deletion, batch creation and the index health verdict.
 */
module Views {
  import opened Wrappers
  import opened Strings
  import opened Models
  import opened LlmRouter

  // ---------------------------------------------------------------------------------------
  // The response envelope

  /** The body every endpoint answers with: `{ok, data, error}`. */
  datatype Envelope<T> = Envelope(ok: bool, data: Option<T>, error: Option<string>)

  /** `api_response`: a success carries its data and no error, a failure its error and no data. */
  function ApiResponse<T>(r: Result<T>): (e: Envelope<T>)
    ensures e.ok <==> r.Ok?
    ensures e.data.Some? <==> e.ok
    ensures e.error.Some? <==> !e.ok
  {
    match r
    case Ok(v) => Envelope(true, Some(v), None)
    case Err(msg) => Envelope(false, None, Some(msg))
  }

  /** Reads an envelope back as the outcome it reports, if it is well formed. */
  function EnvelopeOutcome<T>(e: Envelope<T>): Option<Result<T>> {
    if e.ok && e.data.Some? && e.error.None? then Some(Ok(e.data.value))
    else if !e.ok && e.data.None? && e.error.Some? then Some(Err(e.error.value))
    else None
  }

  /** An envelope tells its reader exactly the outcome it was built from. */
  lemma EnvelopeRoundTrip<T>(r: Result<T>)
    ensures EnvelopeOutcome(ApiResponse(r)) == Some(r)
  {
  }

  // ---------------------------------------------------------------------------------------
  // Queries over the record store

  /** A filter over memories, built like the ORM's `Q` objects. */
  datatype Criterion =
    | ConversationIs(conversationId: string)
    | ScopeIs(scope: Scope)
    | IdIs(id: nat)
    | Or(left: Criterion, right: Criterion)
    | Not(inner: Criterion)

  predicate Matches(q: Criterion, m: Memory) {
    match q
    case ConversationIs(c) => m.conversationId == c
    case ScopeIs(s) => m.scope == s
    case IdIs(id) => m.id == id
    case Or(a, b) => Matches(a, m) || Matches(b, m)
    case Not(a) => !Matches(a, m)
  }

  /** What a conversation may see: its own memories and every team-global one. */
  function VisibleTo(conversationId: string): Criterion {
    Or(ConversationIs(conversationId), ScopeIs(TeamGlobal))
  }

  /** A memory is visible to a conversation exactly when it is the conversation's own or
    * team-global. */
  lemma MatchesVisible(conversationId: string, m: Memory)
    ensures Matches(VisibleTo(conversationId), m) <==> m.conversationId == conversationId || m.scope == TeamGlobal
  {
  }

  /** `filter(q)`: the memories that match `q`, in their stored order. */
  function Filter(ms: seq<Memory>, q: Criterion): (r: seq<Memory>)
    ensures |r| <= |ms|
    ensures forall i :: 0 <= i < |r| ==> Matches(q, r[i])
  {
    if ms == [] then []
    else Filter(ms[..|ms| - 1], q) + if Matches(q, ms[|ms| - 1]) then [ms[|ms| - 1]] else []
  }

  /** A memory is selected by a filter exactly when it is stored and matches. */
  lemma {:induction false} FilterMembers(ms: seq<Memory>, q: Criterion, m: Memory)
    ensures m in Filter(ms, q) <==> m in ms && Matches(q, m)
  {
    if ms != [] {
      var init := ms[..|ms| - 1];
      assert ms == init + [ms[|ms| - 1]];
      FilterMembers(init, q, m);
    }
  }

  /** Filtering one more memory adds it at the end exactly when it matches. */
  lemma FilterSnoc(ms: seq<Memory>, x: Memory, q: Criterion)
    ensures Filter(ms + [x], q) == Filter(ms, q) + if Matches(q, x) then [x] else []
  {
    assert (ms + [x])[..|ms|] == ms;
  }

  lemma {:induction false} FilterAppend(a: seq<Memory>, b: seq<Memory>, q: Criterion)
    ensures Filter(a + b, q) == Filter(a, q) + Filter(b, q)
    decreases |b|
  {
    if b != [] {
      var init := b[..|b| - 1];
      assert a + b == (a + init) + [b[|b| - 1]];
      assert (a + b)[..|a + b| - 1] == a + init;
      FilterAppend(a, init, q);
    } else {
      assert a + b == a;
    }
  }

  lemma {:induction false} FilterAll(ms: seq<Memory>, q: Criterion)
    requires forall i :: 0 <= i < |ms| ==> Matches(q, ms[i])
    ensures Filter(ms, q) == ms
  {
    if ms != [] {
      FilterAll(ms[..|ms| - 1], q);
    }
  }

  /** Filtering a store keeps its ids unique and below any bound they were below. */
  lemma FilterKeepsIds(ms: seq<Memory>, q: Criterion, bound: nat)
    requires UniqueIds(ms) && forall i :: 0 <= i < |ms| ==> ms[i].id < bound
    ensures UniqueIds(Filter(ms, q))
    ensures forall i :: 0 <= i < |Filter(ms, q)| ==> Filter(ms, q)[i].id < bound
  {
    FilterUnique(ms, q);
    var r := Filter(ms, q);
    forall k | 0 <= k < |r|
      ensures r[k].id < bound
    {
      assert r[k] in r;
      FilterMembers(ms, q, r[k]);
    }
  }

  /** A filter and its negation split the memories between them. */
  lemma {:induction false} FilterPartition(ms: seq<Memory>, q: Criterion)
    ensures |Filter(ms, q)| + |Filter(ms, Not(q))| == |ms|
  {
    if ms != [] {
      FilterPartition(ms[..|ms| - 1], q);
    }
  }

  /** No two memories share an id. */
  predicate UniqueIds(ms: seq<Memory>) {
    forall i, j :: 0 <= i < j < |ms| ==> ms[i].id != ms[j].id
  }

  lemma {:induction false} FilterUnique(ms: seq<Memory>, q: Criterion)
    requires UniqueIds(ms)
    ensures UniqueIds(Filter(ms, q))
  {
    if ms != [] {
      var init, last := ms[..|ms| - 1], ms[|ms| - 1];
      FilterUnique(init, q);
      var fi := Filter(init, q);
      forall k | 0 <= k < |fi|
        ensures fi[k].id != last.id
      {
        assert fi[k] in fi;
        FilterMembers(init, q, fi[k]);
        var j :| 0 <= j < |init| && init[j] == fi[k];
        assert ms[j] == init[j];
      }
    }
  }

  /** A memory passes `Not(IdIs(id))` exactly when its id is another. */
  lemma MatchesOtherId(id: nat, m: Memory)
    ensures Matches(Not(IdIs(id)), m) <==> m.id != id
  {
  }

  /** With unique ids, cutting out the memory at `i` is filtering out its id. */
  lemma RemoveAtIsFilter(ms: seq<Memory>, i: nat)
    requires UniqueIds(ms) && i < |ms|
    ensures ms[..i] + ms[i + 1..] == Filter(ms, Not(IdIs(ms[i].id)))
  {
    var id := ms[i].id;
    var q := Not(IdIs(id));
    var before, after := ms[..i], ms[i + 1..];
    forall k | 0 <= k < |before|
      ensures Matches(q, before[k])
    {
      assert before[k] == ms[k];
      MatchesOtherId(id, before[k]);
    }
    forall k | 0 <= k < |after|
      ensures Matches(q, after[k])
    {
      assert after[k] == ms[i + 1 + k];
      MatchesOtherId(id, after[k]);
    }
    MatchesOtherId(id, ms[i]);
    FilterAll(before, q);
    FilterAll(after, q);
    FilterSnoc(before, ms[i], q);
    assert Filter(before + [ms[i]], q) == before;
    FilterAppend(before + [ms[i]], after, q);
    assert ms == (before + [ms[i]]) + after;
  }

  /** `filter(q).order_by('-created_at')`. */
  function Query(ms: seq<Memory>, q: Criterion): (r: seq<Memory>)
    ensures NewestFirst(r)
    ensures multiset(r) == multiset(Filter(ms, q))
    ensures |r| == |Filter(ms, q)|
    ensures forall i :: 0 <= i < |r| ==> r[i] in ms && Matches(q, r[i])
  {
    var f := Filter(ms, q);
    var r := MemoryOrder(f);
    assert |multiset(r)| == |multiset(f)|;
    forall i | 0 <= i < |r|
      ensures r[i] in ms && Matches(q, r[i])
    {
      assert r[i] in multiset(f);
      FilterMembers(ms, q, r[i]);
    }
    r
  }

  /** The `max` newest memories a conversation can see, newest first: the query behind both
    * context injection and the chat context block. */
  function RecentVisible(ms: seq<Memory>, conversationId: string, max: nat): (r: seq<Memory>)
    ensures |r| == if max <= |Filter(ms, VisibleTo(conversationId))| then max else |Filter(ms, VisibleTo(conversationId))|
    ensures forall i :: 0 <= i < |r| ==> r[i] in ms
    ensures forall i :: 0 <= i < |r| ==> r[i].conversationId == conversationId || r[i].scope == TeamGlobal
    ensures NewestFirst(r)
    ensures multiset(r) <= multiset(Filter(ms, VisibleTo(conversationId)))
  {
    var all := Query(ms, VisibleTo(conversationId));
    var r := Take(all, max);
    PrefixMultiset(r, all);
    forall i | 0 <= i < |r|
      ensures r[i] in ms && (r[i].conversationId == conversationId || r[i].scope == TeamGlobal)
    {
      assert r[i] == all[i];
      MatchesVisible(conversationId, all[i]);
    }
    r
  }

  /** `RecentVisible` keeps the newest: every memory the conversation can see is returned,
    * or else the cap is filled by memories at least as recent as it. */
  lemma RecentVisibleIsNewest(ms: seq<Memory>, conversationId: string, max: nat, m: Memory)
    requires m in ms && (m.conversationId == conversationId || m.scope == TeamGlobal)
    ensures var r := RecentVisible(ms, conversationId, max);
      m in r || (|r| == max && forall x :: x in r ==> x.createdAt >= m.createdAt)
  {
    var all := Query(ms, VisibleTo(conversationId));
    MatchesVisible(conversationId, m);
    FilterMembers(ms, VisibleTo(conversationId), m);
    assert m in multiset(all);
    var j :| 0 <= j < |all| && all[j] == m;
    TakeKeepsNewest(all, max, j);
  }

  /** The first `max` of a newest-first sequence hold any given element, or else `max`
    * elements at least as recent as it. */
  lemma TakeKeepsNewest(all: seq<Memory>, max: nat, j: nat)
    requires j < |all| && NewestFirst(all)
    ensures var r := Take(all, max);
      all[j] in r || (|r| == max && forall x :: x in r ==> x.createdAt >= all[j].createdAt)
  {
    var r := Take(all, max);
    if j < |r| {
      assert r[j] == all[j];
    } else {
      forall x | x in r
        ensures x.createdAt >= all[j].createdAt
      {
        var i :| 0 <= i < |r| && r[i] == x;
        assert all[i] == x;
      }
    }
  }

  // ---------------------------------------------------------------------------------------
  // Rendering memories into a prompt

  /** The marker of a team-global memory in an injected context. */
  const GlobalMarker: string := "[GLOBAL]"

  /** The text injected when no memory matches. */
  const NoMemoriesText: string := "No previous memories found."

  /** The first line of the chat context block. */
  const ChatHeader: string := "=== Relevant Context ==="

  /** One memory as a context line: `- {marker} {text}`, the marker empty unless team-global. */
  function ContextLine(m: Memory): (r: string)
    ensures m.scope == TeamGlobal ==> r == "- [GLOBAL] " + m.text
    ensures m.scope != TeamGlobal ==> r == "-  " + m.text
  {
    "- " + (if m.scope == TeamGlobal then GlobalMarker else "") + " " + m.text
  }

  /** The third character of a context line tells which scope its memory has. */
  lemma ContextLineShowsScope(m: Memory)
    ensures ContextLine(m)[2] == '[' <==> m.scope == TeamGlobal
  {
  }

  function ContextLines(ms: seq<Memory>): (r: seq<string>)
    ensures |r| == |ms|
    ensures forall i :: 0 <= i < |ms| ==> r[i] == ContextLine(ms[i])
  {
    seq(|ms|, i requires 0 <= i < |ms| => ContextLine(ms[i]))
  }

  /** The injected context for the selected memories. */
  function InjectText(selected: seq<Memory>): string {
    if selected == [] then NoMemoriesText else Join(ContextLines(selected), "\n")
  }

  /** The context block of a chat turn for the selected memories. */
  function ChatText(selected: seq<Memory>): string {
    if selected == [] then "" else Join([ChatHeader] + ContextLines(selected), "\n")
  }

  /** The fixed empty-result text is given exactly when nothing was selected: every other
    * injected context starts with the `- ` of its first line. */
  lemma InjectTextEmptyExactly(selected: seq<Memory>)
    ensures InjectText(selected) == NoMemoriesText <==> selected == []
  {
    if selected != [] {
      var lines := ContextLines(selected);
      JoinFirst(lines, "\n");
      var t := Join(lines, "\n");
      assert lines[0][..2] == "- ";
      assert t[..2] == "- ";
      assert NoMemoriesText[..2] == "No";
    }
  }

  /** When no memory text holds a line break, the injected context has one line per memory:
    * splitting it at line breaks gives back the context lines, so the memory count is the
    * line count. */
  lemma InjectTextLines(selected: seq<Memory>)
    requires selected != []
    requires forall i :: 0 <= i < |selected| ==> '\n' !in selected[i].text
    ensures Split(InjectText(selected), '\n') == ContextLines(selected)
    ensures |Split(InjectText(selected), '\n')| == |selected|
  {
    var lines := ContextLines(selected);
    forall i | 0 <= i < |lines|
      ensures '\n' !in lines[i]
    {
      assert lines[i] == "- " + (if selected[i].scope == TeamGlobal then GlobalMarker else "") + " " + selected[i].text;
    }
    SplitJoin(lines, '\n');
  }

  /** The chat context block is the header line over the context that injection renders for
    * the same selection, and empty when nothing was selected. */
  lemma ChatTextIsHeaderedInjectText(selected: seq<Memory>)
    ensures selected == [] ==> ChatText(selected) == ""
    ensures selected != [] ==> ChatText(selected) == ChatHeader + "\n" + InjectText(selected)
  {
    if selected != [] {
      JoinCons(ChatHeader, ContextLines(selected), "\n");
    }
  }

  // ---------------------------------------------------------------------------------------
  // Requests and results

  /** A remember request once the serializer accepted it; `None` fields were left out. */
  datatype RememberRequest = RememberRequest(
    text: string,
    tags: Option<seq<string>>,
    conversationId: string,
    scope: Option<Scope>)

  /** An inject request once the serializer accepted it. */
  datatype InjectRequest = InjectRequest(conversationId: string, maxMemories: Option<int>)

  /** The data of a successful inject. */
  datatype InjectData = InjectData(injectedContext: string, memoryCount: nat, memories: seq<Memory>)

  /** The data of a page of memories. */
  datatype Page = Page(memories: seq<Memory>, total: nat, limit: int, offset: int)

  /** One created memory as batch creation reports it. */
  datatype CreatedSummary = CreatedSummary(id: nat, text: string)

  /** The data of a batch creation. */
  datatype BatchData = BatchData(created: nat, memories: seq<CreatedSummary>)

  /** The data of clearing a conversation's memories. */
  datatype ClearData = ClearData(message: string, count: nat)

  /** Whether the similarity index holds as many entries as the store holds memories. */
  datatype Health = Healthy | NeedsRebuild {
    function Name(): string {
      match this
      case Healthy => "healthy"
      case NeedsRebuild => "needs_rebuild"
    }
  }

  datatype IndexStatus = IndexStatus(totalMemories: nat, indexedMemories: nat, health: Health)

  /** What a request the serializer rejects gets (the serializer's messages are not modelled). */
  const InvalidRequest: string := "invalid request"
  /** What the ORM raises for a negative slice bound; the endpoint reports it as its error. */
  const NegativeIndexing: string := "Negative indexing is not supported."
  const ConversationIdRequired: string := "conversation_id is required"
  const MemoriesArrayRequired: string := "memories array required"
  const MemoryDeleted: string := "Memory deleted successfully"
  const MemoryNotFound: string := "Memory not found"

  const DefaultMaxMemories: int := 10
  const ChatMaxMemories: nat := 10
  const DefaultLimit: int := 20
  const DefaultOffset: int := 0

  /** The memory a remember request creates under the given id and time. */
  function NewMemory(req: RememberRequest, id: nat, now: int): (m: Memory)
    ensures m.id == id && m.text == req.text && m.conversationId == req.conversationId
    ensures m.createdAt == now
    ensures m.scope == if req.scope.Some? then req.scope.value else ConversationScope
    ensures m.tags == if req.tags.Some? then req.tags.value else []
  {
    Memory(id, req.text, req.tags.GetOr([]), req.conversationId, req.scope.GetOr(DefaultScope), now)
  }

  /** The entries of a batch the serializer accepts, in order. */
  function Accepted(entries: seq<Option<RememberRequest>>): (r: seq<RememberRequest>)
    ensures |r| <= |entries|
  {
    if entries == [] then []
    else
      var init, last := entries[..|entries| - 1], entries[|entries| - 1];
      Accepted(init) + if last.Some? then [last.value] else []
  }

  /** A request is kept exactly when the serializer accepted it. */
  lemma {:induction false} AcceptedMembers(entries: seq<Option<RememberRequest>>, req: RememberRequest)
    ensures req in Accepted(entries) <==> Some(req) in entries
  {
    if entries != [] {
      var init, last := entries[..|entries| - 1], entries[|entries| - 1];
      assert entries == init + [last];
      AcceptedMembers(init, req);
    }
  }

  lemma AcceptedSnoc(entries: seq<Option<RememberRequest>>, e: Option<RememberRequest>)
    ensures Accepted(entries + [e]) == Accepted(entries) + if e.Some? then [e.value] else []
  {
    assert (entries + [e])[..|entries|] == entries;
  }

  /** The memories a sequence of accepted requests creates, with consecutive ids from `firstId`. */
  function NewMemories(reqs: seq<RememberRequest>, firstId: nat, now: int): (r: seq<Memory>)
    ensures |r| == |reqs|
    ensures forall i :: 0 <= i < |reqs| ==> r[i] == NewMemory(reqs[i], firstId + i, now)
  {
    seq(|reqs|, i requires 0 <= i < |reqs| => NewMemory(reqs[i], firstId + i, now))
  }

  lemma NewMemoriesSnoc(reqs: seq<RememberRequest>, req: RememberRequest, firstId: nat, now: int)
    ensures NewMemories(reqs + [req], firstId, now) == NewMemories(reqs, firstId, now) + [NewMemory(req, firstId + |reqs|, now)]
  {
  }

  /** How batch creation reports the memories it created: each id with the text's preview. */
  function Summaries(ms: seq<Memory>): (r: seq<CreatedSummary>)
    ensures |r| == |ms|
    ensures forall i :: 0 <= i < |ms| ==> r[i] == CreatedSummary(ms[i].id, Preview(ms[i].text))
  {
    seq(|ms|, i requires 0 <= i < |ms| => CreatedSummary(ms[i].id, Preview(ms[i].text)))
  }

  lemma SummariesSnoc(ms: seq<Memory>, m: Memory)
    ensures Summaries(ms + [m]) == Summaries(ms) + [CreatedSummary(m.id, Preview(m.text))]
  {
  }

  /** The index health verdict: healthy exactly when the index holds one entry per memory. */
  function IndexHealth(indexedCount: nat, totalMemories: nat): (h: Health)
    ensures h == Healthy <==> indexedCount == totalMemories
  {
    if indexedCount == totalMemories then Healthy else NeedsRebuild
  }

  // ---------------------------------------------------------------------------------------
  // Chat turns

  /** A chat request once the serializer accepted it; `None` fields were left out. */
  datatype ChatRequest = ChatRequest(conversationId: string, message: string, model: Option<string>, remember: Option<bool>)

  /** The model a chat turn uses when none is named. */
  const DefaultChatModel: string := "echo"

  /** The trace of a chat turn (its clock readings are not modelled). */
  datatype ChatTrace = ChatTrace(
    model: string,
    provider: Provider,
    conversationId: string,
    contextInjected: bool,
    memoryHits: nat,
    contextTokens: nat)

  /** The data of a chat turn. */
  datatype ChatData = ChatData(reply: string, modelUsed: string, trace: ChatTrace, memoryInjected: bool, autoExtractedFacts: nat)

  /** The answer of `chat_view` over the stored memories `ms`: the context block of the ten
    * newest memories the conversation can see, the routed reply, and its trace;
    * `extractedCount` is how many facts the extractor saved when the turn is remembered. */
  function ChatAnswer(ms: seq<Memory>, req: ChatRequest, extractedCount: nat): ChatData {
    var model := req.model.GetOr(DefaultChatModel);
    var selected := RecentVisible(ms, req.conversationId, ChatMaxMemories);
    var context := ChatText(selected);
    var routed := CallLlm(model, req.message, context);
    ChatData(routed.reply, routed.modelUsed,
      ChatTrace(routed.modelUsed, routed.provider, req.conversationId, context != "", |selected|, routed.contextLength.GetOr(0)),
      req.remember.GetOr(false),
      if req.remember.GetOr(false) then extractedCount else 0)
  }

  /** A chat turn uses the given model or `echo`, routes it as the table says, counts as hits
    * the at most ten memories of its context block, and reports context exactly when there are
    * hits. */
  lemma ChatAnswerTrace(ms: seq<Memory>, req: ChatRequest, extractedCount: nat)
    ensures var model, d := req.model.GetOr(DefaultChatModel), ChatAnswer(ms, req, extractedCount);
      && d.modelUsed == model && d.trace.model == model
      && d.trace.provider == Resolve(SupportedModels, model)
      && d.trace.conversationId == req.conversationId
      && d.trace.memoryHits == |RecentVisible(ms, req.conversationId, ChatMaxMemories)| <= 10
      && (d.trace.contextInjected <==> d.trace.memoryHits > 0)
      && d.memoryInjected == req.remember.GetOr(false)
      && d.autoExtractedFacts == if d.memoryInjected then extractedCount else 0
  {
    ChatTextIsHeaderedInjectText(RecentVisible(ms, req.conversationId, ChatMaxMemories));
  }

  /** The context tokens a chat turn reports: the stripped length of its context block when
    * echo answers, nothing for providers that report no context length. */
  lemma ChatContextTokens(ms: seq<Memory>, req: ChatRequest, extractedCount: nat)
    ensures var model, d := req.model.GetOr(DefaultChatModel), ChatAnswer(ms, req, extractedCount);
      var context := ChatText(RecentVisible(ms, req.conversationId, ChatMaxMemories));
      && (Resolve(SupportedModels, model) == Echo ==> d.trace.contextTokens == |Strip(context)|)
      && (Resolve(SupportedModels, model) != Echo ==> d.trace.contextTokens == 0)
  {
    var model := req.model.GetOr(DefaultChatModel);
    var context := ChatText(RecentVisible(ms, req.conversationId, ChatMaxMemories));
    EchoCorrectedReportsContext(model, context, req.message);
  }

  /** The two memories a remembered chat turn stores: the user's message and the reply. */
  function TurnMemories(conversationId: string, message: string, modelUsed: string, reply: string): (r: seq<RememberRequest>)
    ensures |r| == 2 && r[0].conversationId == r[1].conversationId == conversationId
    ensures r[0].text == "User: " + message && r[0].tags == Some(["chat", "user_message"])
    ensures r[1].text == "Assistant (" + modelUsed + "): " + reply && r[1].tags == Some(["chat", "assistant_response"])
    ensures r[0].scope.None? && r[1].scope.None?
  {
    [ RememberRequest("User: " + message, Some(["chat", "user_message"]), conversationId, None),
      RememberRequest("Assistant (" + modelUsed + "): " + reply, Some(["chat", "assistant_response"]), conversationId, None) ]
  }

  /** A memory stored by a remembered chat turn. */
  const RememberedTurn: Memory := Memory(1, "User: hi", ["chat", "user_message"], "c", ConversationScope, 0)

  /** The chat context block that shows only `RememberedTurn`. */
  lemma RememberedTurnContext()
    ensures ChatText([RememberedTurn]) == "=== Relevant Context ===\n-  User: hi"
  {
    ChatTextIsHeaderedInjectText([RememberedTurn]);
  }

  /** In the next turn's prompt, the first marker is the remembered one at index 28. */
  lemma RememberedTurnMarker(before: string, rest: string)
    requires before == "=== Relevant Context ===\n-  " && rest == "User: hi\n\nUser: x"
    ensures |before| == 28
    ensures IndexOf(before + rest, UserMarker) == Some(28)
  {
    var full := before + rest;
    assert 'U' !in before;
    forall i | 0 <= i < 28
      ensures !OccursAt(full, UserMarker, i)
    {
      assert before[i] in before;
      assert full[i] == before[i];
      if i + 5 <= |full| {
        assert full[i..i + 5][0] != UserMarker[0];
      }
    }
    assert rest[..5] == UserMarker;
    assert full[28..33] == rest[..5];
    IndexOfFirst(full, UserMarker, 28);
  }

  /** The text before the remembered marker strips to 26 characters. */
  lemma RememberedTurnPrefix(before: string)
    requires before == "=== Relevant Context ===\n-  "
    ensures |Strip(before)| == 26
  {
    assert before[..27][..26] == before[..26];
    assert Strip(before[..26]) == before[..26];
    assert Strip(before[..27]) == Strip(before[..26]);
  }

  /** The remembered turn's context block is its own strip. */
  lemma RememberedTurnStripped(context: string)
    requires context == "=== Relevant Context ===\n-  User: hi"
    ensures |Strip(context)| == 36
  {
    assert !IsWs(context[0]) && !IsWs(context[|context| - 1]);
  }

  /** The next turn's prompt: the context block, the assembled marker and the message. */
  lemma RememberedTurnPrompt(context: string, before: string, rest: string)
    requires context == "=== Relevant Context ===\n-  User: hi"
    requires before == "=== Relevant Context ===\n-  " && rest == "User: hi\n\nUser: x"
    ensures FullPrompt(context, "x") == before + rest
    ensures (before + rest)[..28] == before
  {
    assert context + "\n\nUser: " + "x" == before + rest;
    assert |before| == 28;
  }

  /** As written, echo measures the context up to the first `User:`, and a memory stored by a
    * remembered chat turn holds one: with that memory alone in view, the next turn's echo
    * reports 26 characters of a 36-character context, while the corrected echo reports 36. */
  lemma EchoUndercountsRememberedTurn()
    ensures var context := ChatText([RememberedTurn]);
      var full := FullPrompt(context, "x");
      && |Strip(context)| == 36
      && CallEcho("echo", full, "x").contextLength == 26
      && CallEchoCorrected("echo", full, "x").contextLength == 36
  {
    var context := ChatText([RememberedTurn]);
    RememberedTurnContext();
    var before, rest := "=== Relevant Context ===\n-  ", "User: hi\n\nUser: x";
    RememberedTurnPrompt(context, before, rest);
    RememberedTurnMarker(before, rest);
    RememberedTurnPrefix(before);
    RememberedTurnStripped(context);
    EchoCorrectedReportsContext("echo", context, "x");
  }

  // ---------------------------------------------------------------------------------------
  // The record store

  /** The memory table. Ids are assigned in increasing order and never reused. */
  class MemoryStore {
    var records: seq<Memory>
    var nextId: nat

    ghost predicate Valid()
      reads this
    {
      UniqueIds(records) && forall i :: 0 <= i < |records| ==> records[i].id < nextId
    }

    constructor ()
      ensures Valid() && records == [] && nextId == 1
    {
      records := [];
      nextId := 1;
    }

    /** `Memory.objects.create`: stores a new memory under the next id. */
    method Create(req: RememberRequest, now: int) returns (m: Memory)
      requires Valid()
      modifies this
      ensures Valid()
      ensures m == NewMemory(req, old(nextId), now)
      ensures records == old(records) + [m] && nextId == old(nextId) + 1
    {
      m := NewMemory(req, nextId, now);
      records := records + [m];
      nextId := nextId + 1;
    }

    /** `mcp_remember`: stores one memory if the serializer accepted the request. */
    method Remember(req: Option<RememberRequest>, now: int) returns (res: Result<Memory>)
      requires Valid()
      modifies this
      ensures Valid()
      ensures req.None? ==> res == Err(InvalidRequest) && records == old(records) && nextId == old(nextId)
      ensures req.Some? ==> res == Ok(NewMemory(req.value, old(nextId), now))
      ensures req.Some? ==> records == old(records) + [res.value] && nextId == old(nextId) + 1
    {
      if req.None? {
        return Err(InvalidRequest);
      }
      var m := Create(req.value, now);
      res := Ok(m);
    }

    /** `mcp_inject`: the newest `max_memories` (default 10) memories the conversation can see,
      * one `- {marker} {text}` line each, or the fixed text when there are none. */
    method Inject(req: Option<InjectRequest>) returns (res: Result<InjectData>)
      ensures req.None? ==> res == Err(InvalidRequest)
      ensures req.Some? && req.value.maxMemories.GetOr(DefaultMaxMemories) < 0 ==> res == Err(NegativeIndexing)
      ensures req.Some? && req.value.maxMemories.GetOr(DefaultMaxMemories) >= 0 ==>
        && res.Ok?
        && res.value.memories == RecentVisible(records, req.value.conversationId, req.value.maxMemories.GetOr(DefaultMaxMemories) as nat)
        && res.value.injectedContext == InjectText(res.value.memories)
        && res.value.memoryCount == |res.value.memories|
    {
      if req.None? {
        return Err(InvalidRequest);
      }
      var max := req.value.maxMemories.GetOr(DefaultMaxMemories);
      if max < 0 {
        return Err(NegativeIndexing);
      }
      var selected := RecentVisible(records, req.value.conversationId, max as nat);
      var parts, list := InjectLines(selected);
      var context := if parts != [] then Join(parts, "\n") else NoMemoriesText;
      res := Ok(InjectData(context, |list|, list));
    }

    /** The loop of `mcp_inject`: one context line and one listed memory per selected memory. */
    method InjectLines(selected: seq<Memory>) returns (parts: seq<string>, list: seq<Memory>)
      ensures parts == ContextLines(selected) && list == selected
    {
      parts, list := [], [];
      for i := 0 to |selected|
        invariant parts == ContextLines(selected[..i])
        invariant list == selected[..i]
      {
        parts := parts + [ContextLine(selected[i])];
        list := list + [selected[i]];
      }
      assert selected[..|selected|] == selected;
    }

    /** The context block of `chat_view`: the header and one line per memory among the ten
      * newest the conversation can see, or nothing when there are none; `memoryHits` counts
      * the lines under the header. */
    method ChatContext(conversationId: string) returns (injectedContext: string, memoryHits: nat)
      ensures memoryHits == |RecentVisible(records, conversationId, ChatMaxMemories)| <= 10
      ensures injectedContext == ChatText(RecentVisible(records, conversationId, ChatMaxMemories))
    {
      var selected := RecentVisible(records, conversationId, ChatMaxMemories);
      injectedContext := "";
      memoryHits := 0;
      if selected != [] {
        var parts;
        parts, memoryHits := ChatLines(selected);
        injectedContext := Join(parts, "\n");
      }
    }

    /** The loop of `chat_view`: the header, then one context line per selected memory,
      * counting the memories as hits. */
    method ChatLines(selected: seq<Memory>) returns (parts: seq<string>, memoryHits: nat)
      ensures parts == [ChatHeader] + ContextLines(selected) && memoryHits == |selected|
    {
      parts, memoryHits := [ChatHeader], 0;
      for i := 0 to |selected|
        invariant parts == [ChatHeader] + ContextLines(selected[..i])
        invariant memoryHits == i
      {
        parts := parts + [ContextLine(selected[i])];
        memoryHits := memoryHits + 1;
      }
      assert selected[..|selected|] == selected;
    }

    /** `mcp_list_memories`: the page `[offset, offset + limit)` of one conversation's memories,
      * newest first, with the number there are in all. */
    function ListMemories(conversationId: Option<string>, limit: Option<int>, offset: Option<int>): (res: Result<Page>)
      reads this
      ensures conversationId.None? || conversationId == Some("") ==> res == Err(ConversationIdRequired)
      ensures res.Ok? ==> conversationId.Some? && conversationId.value != ""
      ensures res.Ok? ==>
        var all := Query(records, ConversationIs(conversationId.value));
        && res.value.total == |all|
        && res.value.limit == limit.GetOr(DefaultLimit)
        && res.value.offset == offset.GetOr(DefaultOffset)
        && 0 <= res.value.offset && 0 <= res.value.offset + res.value.limit
        && res.value.memories == Slice(all, res.value.offset as nat, (res.value.offset + res.value.limit) as nat)
      ensures conversationId.Some? && conversationId.value != "" ==>
        (res.Err? <==> offset.GetOr(DefaultOffset) < 0 || offset.GetOr(DefaultOffset) + limit.GetOr(DefaultLimit) < 0)
      ensures res.Err? && conversationId.Some? && conversationId.value != "" ==> res.error == NegativeIndexing
    {
      if conversationId.None? || conversationId.value == "" then Err(ConversationIdRequired)
      else
        var l, o := limit.GetOr(DefaultLimit), offset.GetOr(DefaultOffset);
        if o < 0 || o + l < 0 then Err(NegativeIndexing)
        else
          var all := Query(records, ConversationIs(conversationId.value));
          Ok(Page(Slice(all, o as nat, (o + l) as nat), |all|, l, o))
    }

    /** `chat_view`: answers the turn over the stored memories and, when asked to remember,
      * stores the user's message and the reply as two new memories of the conversation,
      * then the facts the extractor draws from the turn (`extracted`, given as the requests
      * it saves), and reports how many facts were saved. */
    method Chat(req: Option<ChatRequest>, extracted: seq<RememberRequest>, now: int) returns (res: Result<ChatData>)
      requires Valid()
      modifies this
      ensures Valid()
      ensures req.None? ==> res == Err(InvalidRequest) && records == old(records) && nextId == old(nextId)
      ensures req.Some? ==> res == Ok(ChatAnswer(old(records), req.value, |extracted|))
      ensures req.Some? && !req.value.remember.GetOr(false) ==> records == old(records) && nextId == old(nextId)
      ensures req.Some? && req.value.remember.GetOr(false) ==>
        var turn := TurnMemories(req.value.conversationId, req.value.message, res.value.modelUsed, res.value.reply);
        && records == old(records) + [NewMemory(turn[0], old(nextId), now), NewMemory(turn[1], old(nextId) + 1, now)]
                      + NewMemories(extracted, old(nextId) + 2, now)
        && nextId == old(nextId) + 2 + |extracted|
    {
      if req.None? {
        return Err(InvalidRequest);
      }
      var r := req.value;
      var d := ChatAnswer(records, r, |extracted|);
      res := Ok(d);
      if r.remember.GetOr(false) {
        RememberTurn(r.conversationId, r.message, d.modelUsed, d.reply, now);
        var facts := CreateAll(extracted, now);
      }
    }

    /** Stores each request as a new memory, in order, under consecutive ids. */
    method CreateAll(reqs: seq<RememberRequest>, now: int) returns (created: seq<Memory>)
      requires Valid()
      modifies this
      ensures Valid()
      ensures created == NewMemories(reqs, old(nextId), now)
      ensures records == old(records) + created && nextId == old(nextId) + |reqs|
    {
      ghost var first, start := nextId, records;
      created := [];
      for i := 0 to |reqs|
        invariant Valid()
        invariant created == NewMemories(reqs[..i], first, now)
        invariant records == start + created && nextId == first + i
      {
        var m := Create(reqs[i], now);
        NewMemoriesSnoc(reqs[..i], reqs[i], first, now);
        assert reqs[..i + 1] == reqs[..i] + [reqs[i]];
        created := created + [m];
      }
      assert reqs[..|reqs|] == reqs;
    }

    /** Stores one chat turn as two memories of the conversation: the user's message, then
      * the reply. */
    method RememberTurn(conversationId: string, message: string, modelUsed: string, reply: string, now: int)
      requires Valid()
      modifies this
      ensures Valid()
      ensures var turn := TurnMemories(conversationId, message, modelUsed, reply);
        && records == old(records) + [NewMemory(turn[0], old(nextId), now), NewMemory(turn[1], old(nextId) + 1, now)]
        && nextId == old(nextId) + 2
    {
      var turn := TurnMemories(conversationId, message, modelUsed, reply);
      ghost var before := records;
      var userMemory := Create(turn[0], now);
      assert records == before + [userMemory];
      var replyMemory := Create(turn[1], now);
      assert records == before + [userMemory] + [replyMemory];
      assert before + [userMemory] + [replyMemory] == before + [userMemory, replyMemory];
    }

    /** `delete_memory`: removes the memory with that id, or reports that there is none. */
    method Delete(memoryId: nat) returns (res: Result<string>)
      requires Valid()
      modifies this
      ensures Valid()
      ensures res.Ok? <==> exists i :: 0 <= i < |old(records)| && old(records)[i].id == memoryId
      ensures res == Ok(MemoryDeleted) || res == Err(MemoryNotFound)
      ensures records == Filter(old(records), Not(IdIs(memoryId)))
      ensures res.Err? ==> records == old(records)
      ensures nextId == old(nextId)
    {
      var i := 0;
      while i < |records| && records[i].id != memoryId
        invariant 0 <= i <= |records|
        invariant forall k :: 0 <= k < i ==> records[k].id != memoryId
      {
        i := i + 1;
      }
      if i == |records| {
        FilterAll(records, Not(IdIs(memoryId)));
        return Err(MemoryNotFound);
      }
      RemoveAtIsFilter(records, i);
      FilterUnique(records, Not(IdIs(memoryId)));
      var before, after := records[..i], records[i + 1..];
      records := before + after;
      res := Ok(MemoryDeleted);
    }

    /** `clear_conversation_memories`: removes every memory of the conversation, whatever its
      * scope, and reports how many went. */
    method ClearConversation(conversationId: string) returns (res: ClearData)
      requires Valid()
      modifies this
      ensures Valid()
      ensures records == Filter(old(records), Not(ConversationIs(conversationId)))
      ensures res.count == |Filter(old(records), ConversationIs(conversationId))|
      ensures res.count == |old(records)| - |records|
      ensures res.message == "Deleted " + Decimal(res.count) + " memories"
      ensures nextId == old(nextId)
    {
      var q := ConversationIs(conversationId);
      var count := |Filter(records, q)|;
      FilterPartition(records, q);
      FilterKeepsIds(records, Not(q), nextId);
      records := Filter(records, Not(q));
      res := ClearData("Deleted " + Decimal(count) + " memories", count);
    }

    /** `batch_remember`: creates one memory per entry the serializer accepts, skipping the
      * others, and reports each created memory with the preview of its text. */
    method BatchRemember(memories: Option<seq<Option<RememberRequest>>>, now: int) returns (res: Result<BatchData>)
      requires Valid()
      modifies this
      ensures Valid()
      ensures memories.None? || memories == Some([]) ==>
        res == Err(MemoriesArrayRequired) && records == old(records) && nextId == old(nextId)
      ensures memories.Some? && memories.value != [] ==>
        var created := NewMemories(Accepted(memories.value), old(nextId), now);
        && records == old(records) + created
        && nextId == old(nextId) + |created|
        && res == Ok(BatchData(|Accepted(memories.value)|, Summaries(created)))
    {
      if memories.None? || memories.value == [] {
        return Err(MemoriesArrayRequired);
      }
      var entries := memories.value;
      ghost var first := nextId;
      ghost var start := records;
      ghost var acc: seq<RememberRequest> := [];
      ghost var created: seq<Memory> := [];
      var summaries: seq<CreatedSummary> := [];
      for i := 0 to |entries|
        invariant Valid()
        invariant acc == Accepted(entries[..i])
        invariant created == NewMemories(acc, first, now)
        invariant records == start + created && nextId == first + |acc|
        invariant summaries == Summaries(created)
      {
        assert entries[..i + 1] == entries[..i] + [entries[i]];
        AcceptedSnoc(entries[..i], entries[i]);
        if entries[i].Some? {
          var m := Create(entries[i].value, now);
          NewMemoriesSnoc(acc, entries[i].value, first, now);
          SummariesSnoc(created, m);
          summaries := summaries + [CreatedSummary(m.id, Preview(m.text))];
          assert records == start + (created + [m]);
          acc := acc + [entries[i].value];
          created := created + [m];
        }
      }
      assert entries[..|entries|] == entries;
      res := Ok(BatchData(|summaries|, summaries));
    }

    /** The counts and verdict of `memory_index_status`, given how many entries the
      * similarity index holds. */
    function Status(indexedCount: nat): (s: IndexStatus)
      reads this
      ensures s.totalMemories == |records| && s.indexedMemories == indexedCount
      ensures s.health == Healthy <==> indexedCount == |records|
    {
      IndexStatus(|records|, indexedCount, IndexHealth(indexedCount, |records|))
    }
  }
}
