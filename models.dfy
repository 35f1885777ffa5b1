/**
 * The records of the memory service: memories, chat messages and conversations, their
 * string forms and their default orderings.
 */
module Models {
  import opened Wrappers
  import opened Strings

  /** A memory's visibility: local to its conversation, or shared by the whole team. */
  datatype Scope = ConversationScope | TeamGlobal {
    /** The value stored in the scope column. */
    function Name(): (s: string)
      ensures s == "conversation" || s == "team-global"
    {
      match this
      case ConversationScope => "conversation"
      case TeamGlobal => "team-global"
    }
  }

  /** The scope a memory gets when none is given. */
  const DefaultScope: Scope := ConversationScope

  /** Reads a stored scope value: only the two declared choices are scopes. */
  function ParseScope(s: string): (r: Option<Scope>)
    ensures r.Some? <==> s == "conversation" || s == "team-global"
    ensures r.Some? ==> r.value.Name() == s
  {
    if s == "conversation" then Some(ConversationScope)
    else if s == "team-global" then Some(TeamGlobal)
    else None
  }

  /** Every scope is stored as a value that reads back as the same scope. */
  lemma ScopeRoundTrip(sc: Scope)
    ensures ParseScope(sc.Name()) == Some(sc)
  {
  }

  /** A stored memory fragment. The `created_at` timestamp is an integer on a monotone clock. */
  datatype Memory = Memory(
    id: nat,
    text: string,
    tags: seq<string>,
    conversationId: string,
    scope: Scope,
    createdAt: int)

  /** The number of characters of a memory's text that its short forms keep. */
  const PreviewLength: nat := 50

  /** The short form of a memory's text: at most 50 characters, then `...` if anything was cut. */
  function Preview(text: string): (r: string)
    ensures |r| == if |text| <= PreviewLength then |text| else PreviewLength + 3
    ensures Take(text, PreviewLength) <= r
  {
    if |text| > PreviewLength then text[..PreviewLength] + "..." else text
  }

  /** A short text is its own preview; a long one keeps its first 50 characters and gains `...`. */
  lemma PreviewCases(text: string)
    ensures |text| <= 50 ==> Preview(text) == text
    ensures |text| > 50 ==> Preview(text) == text[..50] + "..." && |Preview(text)| == 53
  {
  }

  /** The scope tag in a memory's string form: only team-global memories carry one. */
  function ScopeInfo(scope: Scope): (r: string)
    ensures r != [] <==> scope == TeamGlobal
  {
    if scope == TeamGlobal then " [" + scope.Name() + "]" else ""
  }

  /** A memory's string form: `Memory {id}{scope_info}: {preview}`. */
  function MemoryStr(m: Memory): (r: string)
    ensures "Memory " <= r
  {
    "Memory " + Decimal(m.id) + ScopeInfo(m.scope) + ": " + Preview(m.text)
  }

  /** The parts of a memory's string form can be read back: the id from the digits after
    * `Memory `, the scope from the character after them, and the preview from the end. */
  lemma MemoryStrParts(m: Memory)
    ensures var r, k := MemoryStr(m), 7 + |Decimal(m.id)|;
      && k < |r|
      && (forall i :: 7 <= i < k ==> IsDigit(r[i]))
      && !IsDigit(r[k])
      && ParseDecimal(r[7..k]) == m.id
      && (r[k] == ' ' <==> m.scope == TeamGlobal)
      && (m.scope == TeamGlobal ==> r[k..k + 16] == " [team-global]: ")
      && (m.scope != TeamGlobal ==> r[k..k + 2] == ": ")
      && r[|r| - |Preview(m.text)|..] == Preview(m.text)
  {
    var d, info, preview := Decimal(m.id), ScopeInfo(m.scope), Preview(m.text);
    assert info == "" || info == " [team-global]";
    MemoryStrLayout(d, info, preview);
    assert MemoryStr(m) == "Memory " + d + info + ": " + preview;
    DecimalRoundTrip(m.id);
  }

  /** Where the pieces of `Memory {digits}{scope_info}: {preview}` sit. */
  lemma MemoryStrLayout(d: string, info: string, preview: string)
    requires info == "" || info == " [team-global]"
    ensures var r, k := "Memory " + d + info + ": " + preview, 7 + |d|;
      && k < |r| && r[7..k] == d
      && (forall i :: 7 <= i < k ==> r[i] == d[i - 7])
      && (r[k] == ' ' <==> info != "")
      && (r[k] == ' ' || r[k] == ':')
      && (info != "" ==> r[k..k + 16] == " [team-global]: ")
      && (info == "" ==> r[k..k + 2] == ": ")
      && r[|r| - |preview|..] == preview
  {
    var r, k := "Memory " + d + info + ": " + preview, 7 + |d|;
    assert r[k] == (info + ": ")[0];
    if info != "" {
      assert r[k..k + 16] == (info + ": ");
    } else {
      assert r[k..k + 2] == ": ";
    }
  }

  /** Who wrote a chat message. */
  datatype Role = User | Assistant | System {
    function Name(): string {
      match this
      case User => "user"
      case Assistant => "assistant"
      case System => "system"
    }
  }

  /** A message of a conversation; `modelUsed` is the nullable, blankable model column. */
  datatype ChatMessage = ChatMessage(role: Role, content: string, modelUsed: Option<string>, createdAt: int)

  /** Whether a message names the model that produced it (`None` and `""` do not). */
  predicate NamesModel(msg: ChatMessage) {
    msg.modelUsed.Some? && msg.modelUsed.value != ""
  }

  /** A message's string form: role, ` [model]` when a model is named, `: `, then at most
    * 50 characters of the content, with no ellipsis. */
  function ChatMessageStr(msg: ChatMessage): (r: string)
    ensures msg.role.Name() <= r
  {
    var modelInfo := if NamesModel(msg) then " [" + msg.modelUsed.value + "]" else "";
    msg.role.Name() + modelInfo + ": " + Take(msg.content, PreviewLength)
  }

  /** A message's string form is its role, then ` [model]: ` exactly when a model is
    * named (`: ` alone otherwise), then the first 50 characters of the content. */
  lemma ChatMessageStrParts(msg: ChatMessage)
    ensures var r, k, tail := ChatMessageStr(msg), |msg.role.Name()|, Take(msg.content, 50);
      && k < |r| && r[..k] == msg.role.Name()
      && (r[k] == ' ' <==> NamesModel(msg))
      && (NamesModel(msg) ==>
            var model := msg.modelUsed.value;
            && r[k..k + |model| + 5] == " [" + model + "]: "
            && |r| == k + |model| + 5 + |tail|)
      && (!NamesModel(msg) ==> r[k..k + 2] == ": " && |r| == k + 2 + |tail|)
      && r[|r| - |tail|..] == tail
  {
    var name, tail := msg.role.Name(), Take(msg.content, PreviewLength);
    if NamesModel(msg) {
      var model := msg.modelUsed.value;
      var info := " [" + model + "]";
      assert info + ": " == " [" + model + "]: ";
      ChatMessageStrLayout(name, info, tail);
    } else {
      ChatMessageStrLayout(name, "", tail);
    }
  }

  /** Where the pieces of `{role}{model_info}: {content}` sit. */
  lemma ChatMessageStrLayout(name: string, info: string, tail: string)
    ensures var r, k := name + info + ": " + tail, |name|;
      && r[..k] == name
      && r[k..k + |info| + 2] == info + ": "
      && r[k] == (info + ": ")[0]
      && |r| == k + |info| + 2 + |tail|
      && r[|r| - |tail|..] == tail
  {
    var r, k := name + info + ": " + tail, |name|;
    assert r == name + (info + ": ") + tail;
  }

  /** A conversation; its title may be blank. */
  datatype Conversation = Conversation(id: string, title: string)

  /** A conversation's string form: `Conversation {id} - ` and its title, or `Untitled`. */
  function ConversationStr(c: Conversation): (r: string)
    ensures "Conversation " + c.id + " - " <= r
    ensures |r| == 16 + |c.id| + if c.title != "" then |c.title| else 8
    ensures c.title != "" ==> r[|r| - |c.title|..] == c.title
    ensures c.title == "" ==> r[|r| - 8..] == "Untitled"
  {
    "Conversation " + c.id + " - " + (if c.title != "" then c.title else "Untitled")
  }

  /** `s` is in non-decreasing order of `key`. */
  predicate SortedBy<T>(s: seq<T>, key: T -> int) {
    forall i, j :: 0 <= i < j < |s| ==> key(s[i]) <= key(s[j])
  }

  /** Puts `x` into the sorted `s`, before the first element whose key is not smaller. */
  function InsertBy<T>(x: T, s: seq<T>, key: T -> int): (r: seq<T>)
    requires SortedBy(s, key)
    ensures SortedBy(r, key)
    ensures multiset(r) == multiset(s) + multiset{x}
  {
    if s == [] then [x]
    else if key(x) <= key(s[0]) then [x] + s
    else
      var rest := InsertBy(x, s[1..], key);
      InsertBehindHead(x, s, key, rest);
      [s[0]] + rest
  }

  /** Keeping the head of `s` in front of the insertion into its tail keeps the order. */
  lemma InsertBehindHead<T>(x: T, s: seq<T>, key: T -> int, rest: seq<T>)
    requires SortedBy(s, key) && s != [] && key(s[0]) < key(x)
    requires SortedBy(rest, key) && multiset(rest) == multiset(s[1..]) + multiset{x}
    ensures SortedBy([s[0]] + rest, key)
    ensures multiset([s[0]] + rest) == multiset(s) + multiset{x}
  {
    forall k | 0 <= k < |rest|
      ensures key(s[0]) <= key(rest[k])
    {
      assert rest[k] in multiset(rest);
      if rest[k] != x {
        assert rest[k] in s[1..];
        var j :| 0 <= j < |s[1..]| && s[1..][j] == rest[k];
        assert s[1..][j] == s[j + 1];
      }
    }
    assert s == [s[0]] + s[1..];
  }

  /** `s` sorted by `key`: the same elements, in non-decreasing order of `key`. */
  function SortBy<T>(s: seq<T>, key: T -> int): (r: seq<T>)
    ensures SortedBy(r, key)
    ensures multiset(r) == multiset(s)
  {
    if s == [] then []
    else
      assert s == [s[0]] + s[1..];
      InsertBy(s[0], SortBy(s[1..], key), key)
  }

  /** Memories newest first (the default ordering of memories). */
  predicate NewestFirst(ms: seq<Memory>) {
    forall i, j :: 0 <= i < j < |ms| ==> ms[i].createdAt >= ms[j].createdAt
  }

  /** Chat messages oldest first (the default ordering of messages). */
  predicate OldestFirst(msgs: seq<ChatMessage>) {
    forall i, j :: 0 <= i < j < |msgs| ==> msgs[i].createdAt <= msgs[j].createdAt
  }

  /** Memories in their default order, `-created_at`. Equal timestamps are left in no
    * promised order. */
  function MemoryOrder(ms: seq<Memory>): (r: seq<Memory>)
    ensures NewestFirst(r)
    ensures multiset(r) == multiset(ms)
  {
    SortBy(ms, (m: Memory) => -m.createdAt)
  }

  /** Chat messages in their default order, `created_at`. */
  function MessageOrder(msgs: seq<ChatMessage>): (r: seq<ChatMessage>)
    ensures OldestFirst(r)
    ensures multiset(r) == multiset(msgs)
  {
    SortBy(msgs, (m: ChatMessage) => m.createdAt)
  }
}
