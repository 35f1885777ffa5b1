/**
 * The model routing table: which provider serves a model name, which names are supported,
 * the table grouped by provider, the prompt sent to a provider and the echo provider's reply.
 */
module LlmRouter {
  import opened Wrappers
  import opened Strings

  /** The backends a model name can be routed to. */
  datatype Provider = OpenAI | Anthropic | Groq | Echo | Local {
    /** The provider's value in the routing table. */
    function Name(): string {
      match this
      case OpenAI => "openai"
      case Anthropic => "anthropic"
      case Groq => "groq"
      case Echo => "echo"
      case Local => "local"
    }
  }

  /** A routing table: model keys with their providers, in declaration order. */
  type Table = seq<(string, Provider)>

  /** The supported models, in the order the table declares them. */
  const SupportedModels: Table := [
    ("gpt-4", OpenAI),
    ("gpt-4-turbo", OpenAI),
    ("gpt-4o", OpenAI),
    ("gpt-3.5-turbo", OpenAI),
    ("claude-3-opus", Anthropic),
    ("claude-3-sonnet", Anthropic),
    ("claude-3-haiku", Anthropic),
    ("llama-3-70b", Groq),
    ("llama-3-8b", Groq),
    ("mixtral-8x7b", Groq),
    ("echo", Echo),
    ("local", Local)
  ]

  /** No key is declared twice: the table is a dictionary. */
  predicate UniqueKeys(t: Table) {
    forall i, j :: 0 <= i < j < |t| ==> t[i].0 != t[j].0
  }

  lemma SupportedModelsAreADictionary()
    ensures UniqueKeys(SupportedModels)
  {
  }

  // ---------------------------------------------------------------------------------------
  // Provider resolution

  /** Where `name` is a key of the table, if it is one (the dictionary lookup). */
  function FindKey(t: Table, name: string): (r: Option<nat>)
    ensures r.Some? ==> r.value < |t| && t[r.value].0 == name
    ensures r.None? <==> forall i :: 0 <= i < |t| ==> t[i].0 != name
  {
    if t == [] then None
    else if t[0].0 == name then Some(0)
    else
      var r := FindKey(t[1..], name);
      assert forall i :: 1 <= i < |t| ==> t[i] == t[1..][i - 1];
      if r.Some? then Some(r.value + 1) else None
  }

  /** The first entry, in table order, whose key is a prefix of `name`. */
  function FirstPrefix(t: Table, name: string): (r: Option<nat>)
    ensures r.Some? ==> r.value < |t| && t[r.value].0 <= name
    ensures r.Some? ==> forall k :: 0 <= k < r.value ==> !(t[k].0 <= name)
    ensures r.None? <==> forall i :: 0 <= i < |t| ==> !(t[i].0 <= name)
  {
    if t == [] then None
    else if t[0].0 <= name then Some(0)
    else
      var r := FirstPrefix(t[1..], name);
      assert forall i :: 1 <= i < |t| ==> t[i] == t[1..][i - 1];
      if r.Some? then Some(r.value + 1) else None
  }

  /** The provider of `name` under `t`: its own entry's, else the first prefix key's, else echo. */
  function Resolve(t: Table, name: string): Provider {
    match FindKey(t, name)
    case Some(i) => t[i].1
    case None =>
      match FirstPrefix(t, name)
      case Some(i) => t[i].1
      case None => Echo
  }

  /** The loop of `get_provider` over a table: an exact key first, then the keys in table
    * order as prefixes, then echo. */
  method LookupProvider(t: Table, modelName: string) returns (p: Provider)
    ensures p == Resolve(t, modelName)
  {
    var exact := FindKey(t, modelName);
    if exact.Some? {
      return t[exact.value].1;
    }
    for i := 0 to |t|
      invariant forall k :: 0 <= k < i ==> !(t[k].0 <= modelName)
    {
      if t[i].0 <= modelName {
        assert FirstPrefix(t, modelName) == Some(i);
        return t[i].1;
      }
    }
    return Echo;
  }

  /** `get_provider`: the provider of a model name under the supported models. */
  method GetProvider(modelName: string) returns (p: Provider)
    ensures p == Resolve(SupportedModels, modelName)
  {
    p := LookupProvider(SupportedModels, modelName);
  }

  /** A name that is a key resolves to that key's provider. */
  lemma ResolveExact(t: Table, name: string, i: nat)
    requires UniqueKeys(t) && i < |t| && t[i].0 == name
    ensures Resolve(t, name) == t[i].1
  {
    var j := FindKey(t, name).value;
    assert t[j].0 == t[i].0;
  }

  /** A name that is no key resolves to the provider of the first key that is its prefix. */
  lemma ResolveFirstPrefix(t: Table, name: string, i: nat)
    requires i < |t| && t[i].0 <= name
    requires forall k :: 0 <= k < i ==> !(t[k].0 <= name)
    requires forall k :: 0 <= k < |t| ==> t[k].0 != name
    ensures Resolve(t, name) == t[i].1
  {
    assert FindKey(t, name).None?;
  }

  /** A name that no key begins resolves to echo. */
  lemma ResolveDefault(t: Table, name: string)
    requires forall k :: 0 <= k < |t| ==> !(t[k].0 <= name)
    ensures Resolve(t, name) == Echo
  {
    assert FindKey(t, name).None? by {
      forall k | 0 <= k < |t|
        ensures t[k].0 != name
      {
        assert !(t[k].0 <= name);
      }
    }
  }

  /** Some entry's provider, or echo: resolution never invents a provider. */
  lemma ResolveFromTable(t: Table, name: string)
    ensures Resolve(t, name) == Echo || exists i :: 0 <= i < |t| && t[i].1 == Resolve(t, name)
  {
  }

  /** The supported table lists echo, so every name resolves to a provider the table lists. */
  lemma ProviderIsListed(name: string)
    ensures exists i :: 0 <= i < |SupportedModels| && SupportedModels[i].1 == Resolve(SupportedModels, name)
  {
    ResolveFromTable(SupportedModels, name);
    assert SupportedModels[10].1 == Echo;
  }

  /** In the supported table a key that begins another key has the same provider, so the
    * exact lookup never decides a different provider than the prefix scan alone would. */
  lemma ExactLookupAgreesWithPrefixScan(name: string)
    requires FirstPrefix(SupportedModels, name).Some?
    ensures Resolve(SupportedModels, name) == SupportedModels[FirstPrefix(SupportedModels, name).value].1
  {
    var t := SupportedModels;
    var e := FindKey(t, name);
    if e.Some? {
      var i, j := e.value, FirstPrefix(t, name).value;
      assert j <= i;
      assert t[j].0 <= t[i].0;
      PrefixesShareProvider(j, i);
    }
  }

  /** The provider the first two characters of a supported key tell. */
  function ProviderByStem(stem: string): Provider {
    if stem == "gp" then OpenAI
    else if stem == "cl" then Anthropic
    else if stem == "ll" || stem == "mi" then Groq
    else if stem == "ec" then Echo
    else Local
  }

  /** Every supported key has at least two characters, and they tell its provider. */
  lemma StemTellsProvider(k: nat)
    requires k < |SupportedModels|
    ensures |SupportedModels[k].0| >= 2
    ensures SupportedModels[k].1 == ProviderByStem(SupportedModels[k].0[..2])
  {
    if k == 0 {
      assert SupportedModels[k].0[..2] == "gp";
    } else if k == 1 {
      assert SupportedModels[k].0[..2] == "gp";
    } else if k == 2 {
      assert SupportedModels[k].0[..2] == "gp";
    } else if k == 3 {
      assert SupportedModels[k].0[..2] == "gp";
    } else if k == 4 {
      assert SupportedModels[k].0[..2] == "cl";
    } else if k == 5 {
      assert SupportedModels[k].0[..2] == "cl";
    } else if k == 6 {
      assert SupportedModels[k].0[..2] == "cl";
    } else if k == 7 {
      assert SupportedModels[k].0[..2] == "ll";
    } else if k == 8 {
      assert SupportedModels[k].0[..2] == "ll";
    } else if k == 9 {
      assert SupportedModels[k].0[..2] == "mi";
    } else if k == 10 {
      assert SupportedModels[k].0[..2] == "ec";
    } else {
      assert SupportedModels[k].0[..2] == "lo";
    }
  }

  /** A supported key that begins another one has the same provider (only `gpt-4` begins
    * other keys, `gpt-4-turbo` and `gpt-4o`, all OpenAI's). */
  lemma PrefixesShareProvider(j: nat, i: nat)
    requires j < |SupportedModels| && i < |SupportedModels| && SupportedModels[j].0 <= SupportedModels[i].0
    ensures SupportedModels[j].1 == SupportedModels[i].1
  {
    StemTellsProvider(j);
    StemTellsProvider(i);
    assert SupportedModels[j].0[..2] == SupportedModels[i].0[..2];
  }

  // ---------------------------------------------------------------------------------------
  // Support and grouping

  /** `is_model_supported`: the name is a key, or some key is its prefix. */
  function IsSupported(t: Table, name: string): (b: bool)
    ensures b <==> exists i :: 0 <= i < |t| && t[i].0 <= name
  {
    FindKey(t, name).Some? || FirstPrefix(t, name).Some?
  }

  /** An unsupported name resolves to echo; a supported one to its exact key's provider or
    * to the provider of a key that begins it. */
  lemma SupportAndResolve(t: Table, name: string)
    ensures !IsSupported(t, name) ==> Resolve(t, name) == Echo
    ensures IsSupported(t, name) ==> exists i :: 0 <= i < |t| && t[i].0 <= name && t[i].1 == Resolve(t, name)
  {
    if !IsSupported(t, name) {
      ResolveDefault(t, name);
    } else if FindKey(t, name).Some? {
      var i := FindKey(t, name).value;
      assert t[i].0 <= name;
    }
  }

  /** The keys listed under provider `p`, in table order. */
  function ModelsOf(t: Table, p: Provider): (r: seq<string>)
    ensures |r| <= |t|
  {
    if t == [] then []
    else ModelsOf(t[..|t| - 1], p) + if t[|t| - 1].1 == p then [t[|t| - 1].0] else []
  }

  /** The providers of a table in order of first appearance. */
  function ProvidersOf(t: Table): (r: seq<Provider>)
    ensures forall p :: p in r <==> exists i :: 0 <= i < |t| && t[i].1 == p
  {
    if t == [] then []
    else
      var init := t[..|t| - 1];
      assert forall i :: 0 <= i < |init| ==> init[i] == t[i];
      ProvidersOf(init) + if t[|t| - 1].1 in ProvidersOf(init) then [] else [t[|t| - 1].1]
  }

  predicate NoDuplicates<T(==)>(s: seq<T>) {
    forall i, j :: 0 <= i < j < |s| ==> s[i] != s[j]
  }

  lemma {:induction false} ProvidersOfNoDuplicates(t: Table)
    ensures NoDuplicates(ProvidersOf(t))
  {
    if t != [] {
      ProvidersOfNoDuplicates(t[..|t| - 1]);
    }
  }

  lemma ModelsOfSnoc(t: Table, e: (string, Provider), p: Provider)
    ensures ModelsOf(t + [e], p) == ModelsOf(t, p) + if e.1 == p then [e.0] else []
  {
    assert (t + [e])[..|t|] == t;
  }

  lemma ProvidersOfSnoc(t: Table, e: (string, Provider))
    ensures ProvidersOf(t + [e]) == ProvidersOf(t) + if e.1 in ProvidersOf(t) then [] else [e.1]
  {
    assert (t + [e])[..|t|] == t;
  }

  /** A provider the table does not list has no models. */
  lemma {:induction false} ModelsOfUnlisted(t: Table, p: Provider)
    requires p !in ProvidersOf(t)
    ensures ModelsOf(t, p) == []
  {
    if t != [] {
      var init := t[..|t| - 1];
      assert p !in ProvidersOf(init);
      ModelsOfUnlisted(init, p);
    }
  }

  /** Every key is listed under its own provider. */
  lemma {:induction false} ModelsOfListsEveryKey(t: Table, i: nat)
    requires i < |t|
    ensures t[i].0 in ModelsOf(t, t[i].1)
  {
    var init := t[..|t| - 1];
    if i < |t| - 1 {
      ModelsOfListsEveryKey(init, i);
      assert init[i] == t[i];
    } else {
      assert ModelsOf(t, t[i].1) == ModelsOf(init, t[i].1) + [t[i].0];
    }
  }

  /** How many keys the providers of `ps` list between them. */
  function TotalListed(t: Table, ps: seq<Provider>): nat {
    if ps == [] then 0 else |ModelsOf(t, ps[0])| + TotalListed(t, ps[1..])
  }

  lemma {:induction false} TotalListedSnoc(t: Table, e: (string, Provider), ps: seq<Provider>)
    requires NoDuplicates(ps)
    ensures TotalListed(t + [e], ps) == TotalListed(t, ps) + if e.1 in ps then 1 else 0
  {
    if ps != [] {
      ModelsOfSnoc(t, e, ps[0]);
      assert NoDuplicates(ps[1..]);
      TotalListedSnoc(t, e, ps[1..]);
      assert e.1 in ps <==> e.1 == ps[0] || e.1 in ps[1..];
      assert ps[0] !in ps[1..];
    }
  }

  lemma {:induction false} TotalListedAppendUnlisted(t: Table, ps: seq<Provider>, p: Provider)
    requires p !in ProvidersOf(t)
    ensures TotalListed(t, ps + [p]) == TotalListed(t, ps)
  {
    if ps == [] {
      ModelsOfUnlisted(t, p);
    } else {
      assert (ps + [p])[1..] == ps[1..] + [p];
      TotalListedAppendUnlisted(t, ps[1..], p);
    }
  }

  /** Grouping by provider lists every entry exactly once: the group sizes add up to the table. */
  lemma {:induction false} GroupsCoverTable(t: Table)
    ensures TotalListed(t, ProvidersOf(t)) == |t|
  {
    if t != [] {
      var init, e := t[..|t| - 1], t[|t| - 1];
      assert t == init + [e];
      GroupsCoverTable(init);
      var ps := ProvidersOf(init);
      ProvidersOfNoDuplicates(init);
      ProvidersOfSnoc(init, e);
      if e.1 in ps {
        assert ProvidersOf(t) == ps;
        TotalListedSnoc(init, e, ps);
        assert TotalListed(t, ps) == TotalListed(init, ps) + 1;
      } else {
        TotalListedAppendUnlisted(init, ps, e.1);
        ProvidersOfNoDuplicates(t);
        TotalListedSnoc(init, e, ps + [e.1]);
        TotalListedAppendUnlisted(init, ps, e.1);
      }
    }
  }

  /** `groups` and `order` hold the grouping of `t` by provider. */
  predicate Grouped(t: Table, groups: map<Provider, seq<string>>, order: seq<Provider>) {
    && order == ProvidersOf(t)
    && (forall p :: p in groups <==> p in order)
    && (forall p :: p in groups ==> groups[p] == ModelsOf(t, p))
  }

  /** One more entry: its provider joins the order when new, and its key joins that provider's list. */
  lemma GroupStep(t: Table, e: (string, Provider), groups: map<Provider, seq<string>>, order: seq<Provider>)
    requires Grouped(t, groups, order)
    ensures e.1 in groups ==> Grouped(t + [e], groups[e.1 := groups[e.1] + [e.0]], order)
    ensures e.1 !in groups ==>
      var g := groups[e.1 := []];
      Grouped(t + [e], g[e.1 := g[e.1] + [e.0]], order + [e.1])
  {
    ProvidersOfSnoc(t, e);
    forall p {
      ModelsOfSnoc(t, e, p);
    }
    if e.1 !in groups {
      ModelsOfUnlisted(t, e.1);
    }
  }

  /** The loop of `get_supported_models` over a table: the keys grouped by provider, with
    * `order` the insertion order of providers into the dictionary. */
  method GroupByProvider(t: Table) returns (groups: map<Provider, seq<string>>, order: seq<Provider>)
    ensures order == ProvidersOf(t) && NoDuplicates(order)
    ensures forall p :: p in groups <==> p in order
    ensures forall p :: p in groups ==> groups[p] == ModelsOf(t, p)
    ensures TotalListed(t, order) == |t|
  {
    groups, order := map[], [];
    for i := 0 to |t|
      invariant Grouped(t[..i], groups, order)
    {
      var model, provider := t[i].0, t[i].1;
      GroupStep(t[..i], t[i], groups, order);
      assert t[..i + 1] == t[..i] + [t[i]];
      if provider !in groups {
        groups := groups[provider := []];
        order := order + [provider];
      }
      groups := groups[provider := groups[provider] + [model]];
    }
    assert t[..|t|] == t;
    ProvidersOfNoDuplicates(t);
    GroupsCoverTable(t);
  }

  /** `get_supported_models`: the supported models grouped by provider. */
  method GetSupportedModels() returns (groups: map<Provider, seq<string>>, order: seq<Provider>)
    ensures order == ProvidersOf(SupportedModels) && NoDuplicates(order)
    ensures forall p :: p in groups <==> p in order
    ensures forall p :: p in groups ==> groups[p] == ModelsOf(SupportedModels, p)
    ensures TotalListed(SupportedModels, order) == |SupportedModels|
  {
    groups, order := GroupByProvider(SupportedModels);
  }

  // ---------------------------------------------------------------------------------------
  // Prompt assembly and the echo provider

  /** The marker that introduces the user's message in a full prompt. */
  const UserMarker: string := "User:"

  /** The prompt `call_llm` sends: the context, a blank line and `User: ` before the prompt,
    * or the bare prompt when there is no context. */
  function FullPrompt(context: string, prompt: string): (r: string)
    ensures context == "" ==> r == prompt
    ensures context != "" ==> |r| == |context| + 8 + |prompt|
    ensures context != "" ==> r[..|context|] == context && r[|context|..|context| + 8] == "\n\nUser: " && r[|context| + 8..] == prompt
  {
    if context != "" then context + "\n\nUser: " + prompt else prompt
  }

  /** What the echo provider answers. */
  datatype EchoReply = EchoReply(
    reply: string,
    modelUsed: string,
    provider: Provider,
    contextInjected: bool,
    contextLength: nat,
    tokens: nat)

  /** `call_echo`: reports whether the prompt carried context (a `User:` marker), the length
    * of the stripped text before the first marker, and the whitespace-separated word count. */
  function CallEcho(model: string, fullPrompt: string, originalPrompt: string): (r: EchoReply)
    ensures r.provider == Echo && r.modelUsed == model
    ensures r.contextInjected <==> exists j :: OccursAt(fullPrompt, UserMarker, j)
    ensures r.contextInjected ==> r.contextLength <= IndexOf(fullPrompt, UserMarker).value
    ensures r.contextInjected ==>
      r.contextLength == |Strip(fullPrompt[..IndexOf(fullPrompt, UserMarker).value])|
    ensures !r.contextInjected ==> r.contextLength == 0
    ensures r.tokens == |Words(fullPrompt)|
  {
    var tokens := |Words(fullPrompt)|;
    match IndexOf(fullPrompt, UserMarker)
    case Some(k) =>
      var contextLength := |Strip(fullPrompt[..k])|;
      EchoReply(EchoWithContext(model, originalPrompt, contextLength), model, Echo, true, contextLength, tokens)
    case None =>
      EchoReply(EchoWithoutContext(model, originalPrompt), model, Echo, false, 0, tokens)
  }

  /** The echo reply when context was received; it reports the context length. */
  function EchoWithContext(model: string, originalPrompt: string, contextLength: nat): (r: string)
    ensures "[Echo Mode - " + model + "]\n\n" <= r
  {
    "[Echo Mode - " + model + "]\n\n"
    + "\U{2705} Context Received (" + Decimal(contextLength) + " chars)\n\n"
    + "\U{1F4DD} Your message: " + originalPrompt + "\n\n\U{1F916} Response: I received your message with injected context. "
    + "In production, this would be processed by " + model + "."
  }

  /** The echo reply when no context was received. */
  function EchoWithoutContext(model: string, originalPrompt: string): (r: string)
    ensures "[Echo Mode - " + model + "]\n\n" <= r
  {
    "[Echo Mode - " + model + "]\n\n"
    + "\U{1F4DD} Your message: " + originalPrompt
    + "\n\n\U{1F916} Response: I received your message. In production, this would be processed by " + model + "."
  }

  /** In an assembled prompt whose context holds no marker, the first marker is the one the
    * assembly put after the blank line. */
  lemma MarkerAfterContext(context: string, prompt: string)
    requires context != "" && forall j :: 0 <= j ==> !OccursAt(context, UserMarker, j)
    ensures IndexOf(FullPrompt(context, prompt), UserMarker) == Some(|context| + 2)
  {
    var full := FullPrompt(context, prompt);
    var n := |context|;
    assert full == context + "\n\nUser: " + prompt;
    assert full[n + 2..n + 7] == UserMarker;
    assert OccursAt(full, UserMarker, n + 2);
    forall j | 0 <= j < n + 2
      ensures !OccursAt(full, UserMarker, j)
    {
      if j + 5 <= n {
        assert full[j..j + 5] == context[j..j + 5];
        assert !OccursAt(context, UserMarker, j);
      } else if j <= n {
        assert full[j..j + 5][n - j] == '\n';
      } else {
        assert full[j..j + 5][0] == '\n';
      }
    }
  }

  lemma WordsOfMarker()
    ensures Words(UserMarker) == [UserMarker]
  {
    assert WordLen(UserMarker[5..]) == 0;
    assert WordLen(UserMarker[4..]) == 1;
    assert WordLen(UserMarker[3..]) == 2;
    assert WordLen(UserMarker[2..]) == 3;
    assert WordLen(UserMarker[1..]) == 4;
    assert WordLen(UserMarker) == 5;
    assert UserMarker[..5] == UserMarker && UserMarker[5..] == [];
  }

  /** The assembled prompt's words are the context's, the marker, then the prompt's. */
  lemma FullPromptWords(context: string, prompt: string)
    requires context != ""
    ensures Words(FullPrompt(context, prompt)) == Words(context) + [UserMarker] + Words(prompt)
  {
    var tail := UserMarker + [' '] + prompt;
    var rest := [] + ['\n'] + tail;
    assert "\n\nUser: " == ['\n'] + ['\n'] + UserMarker + [' '];
    assert FullPrompt(context, prompt) == context + ['\n'] + rest;
    WordsAppend(context, '\n', rest);
    WordsAppend([], '\n', tail);
    WordsAppend(UserMarker, ' ', prompt);
    WordsOfMarker();
  }

  /** Echoing a prompt assembled with a marker-free context reports the context as injected,
    * its stripped length, and one more word than the context and prompt hold. */
  lemma EchoOfAssembledPrompt(model: string, context: string, prompt: string)
    requires context != "" && forall j :: 0 <= j ==> !OccursAt(context, UserMarker, j)
    ensures var r := CallEcho(model, FullPrompt(context, prompt), prompt);
      && r.contextInjected
      && r.contextLength == |Strip(context)|
      && r.tokens == |Words(context)| + 1 + |Words(prompt)|
  {
    MarkerAfterContext(context, prompt);
    StripBeforeMarker(context, prompt);
    FullPromptWords(context, prompt);
  }

  /** The text before the assembled marker strips to the stripped context. */
  lemma StripBeforeMarker(context: string, prompt: string)
    requires context != ""
    ensures Strip(FullPrompt(context, prompt)[..|context| + 2]) == Strip(context)
  {
    BeforeMarker(context, prompt);
    StripBlankLine(context);
  }

  /** The assembled prompt's first two characters after the context are a blank line. */
  lemma BeforeMarker(context: string, prompt: string)
    requires context != ""
    ensures FullPrompt(context, prompt)[..|context| + 2] == context + "\n\n"
  {
    var full := FullPrompt(context, prompt);
    var n := |context|;
    var before := full[..n + 2];
    assert forall k :: 0 <= k < n ==> before[k] == context[k];
    assert before[n] == '\n' && before[n + 1] == '\n';
  }

  /** The blank line after a context does not survive stripping. */
  lemma StripBlankLine(context: string)
    ensures Strip(context + "\n\n") == Strip(context)
  {
    assert context + "\n\n" == (context + ['\n']) + ['\n'];
    StripTrailing(context + ['\n'], '\n');
    StripTrailing(context, '\n');
  }

  /** Without context the prompt goes out as it is, and echo sees no context unless the
    * prompt itself holds the marker. */
  lemma EchoOfBarePrompt(model: string, prompt: string)
    requires forall j :: 0 <= j ==> !OccursAt(prompt, UserMarker, j)
    ensures var r := CallEcho(model, FullPrompt("", prompt), prompt);
      !r.contextInjected && r.contextLength == 0 && r.tokens == |Words(prompt)|
  {
  }

  /** `call_echo` as it should measure: the context is what the assembly put before
    * `\n\nUser: ` and the original prompt, so a marker inside the context cannot cut it. */
  function ContextOf(fullPrompt: string, originalPrompt: string): (r: Option<string>)
    ensures r.Some? ==> r.value != "" && FullPrompt(r.value, originalPrompt) == fullPrompt
  {
    var n := |fullPrompt| - |originalPrompt| - 8;
    if n > 0 && fullPrompt[n..] == "\n\nUser: " + originalPrompt then
      var c := fullPrompt[..n];
      assert fullPrompt == c + fullPrompt[n..];
      Some(c)
    else None
  }

  /** The context an assembled prompt was built from is recovered exactly, whatever it holds. */
  lemma ContextOfFullPrompt(context: string, prompt: string)
    ensures ContextOf(FullPrompt(context, prompt), prompt) == if context == "" then None else Some(context)
  {
    var full := FullPrompt(context, prompt);
    if context != "" {
      assert full[|context|..] == "\n\nUser: " + prompt;
    }
  }

  /** The echo provider with the context measured by `ContextOf`. */
  function CallEchoCorrected(model: string, fullPrompt: string, originalPrompt: string): (r: EchoReply)
    ensures r.provider == Echo && r.modelUsed == model
    ensures r.contextInjected <==> ContextOf(fullPrompt, originalPrompt).Some?
    ensures r.contextInjected ==> r.contextLength == |Strip(ContextOf(fullPrompt, originalPrompt).value)|
    ensures !r.contextInjected ==> r.contextLength == 0
    ensures r.tokens == |Words(fullPrompt)|
  {
    var tokens := |Words(fullPrompt)|;
    match ContextOf(fullPrompt, originalPrompt)
    case Some(c) =>
      var contextLength := |Strip(c)|;
      EchoReply(EchoWithContext(model, originalPrompt, contextLength), model, Echo, true, contextLength, tokens)
    case None =>
      EchoReply(EchoWithoutContext(model, originalPrompt), model, Echo, false, 0, tokens)
  }

  /** The corrected echo reports context exactly when some was injected, and its stripped
    * length, for every context and prompt. */
  lemma EchoCorrectedReportsContext(model: string, context: string, prompt: string)
    ensures var r := CallEchoCorrected(model, FullPrompt(context, prompt), prompt);
      && (r.contextInjected <==> context != "")
      && r.contextLength == |Strip(context)|
  {
    ContextOfFullPrompt(context, prompt);
  }

  /** As written, echo takes a `User:` in the prompt itself for injected context: with no
    * context and the prompt `User: hi`, it reports context of length 0, while the corrected
    * echo reports none. */
  lemma EchoSeesContextInBarePrompt()
    ensures FullPrompt("", "User: hi") == "User: hi"
    ensures CallEcho("echo", "User: hi", "User: hi").contextInjected
    ensures CallEcho("echo", "User: hi", "User: hi").contextLength == 0
    ensures !CallEchoCorrected("echo", "User: hi", "User: hi").contextInjected
  {
    assert OccursAt("User: hi", UserMarker, 0);
    EchoCorrectedReportsContext("echo", "", "User: hi");
  }

  /** The fixed reply of a provider that is not wired to a service yet. */
  function Placeholder(provider: Provider, model: string): (r: string)
    requires provider != Echo
    ensures "[" + PlaceholderLabel(provider) + " " + model + "] This is a placeholder response. " <= r
  {
    var service := match provider
      case OpenAI => "OpenAI API"
      case Anthropic => "Anthropic API"
      case Groq => "Groq API"
      case _ => "local model server";
    "[" + PlaceholderLabel(provider) + " " + model + "] This is a placeholder response. Integrate " + service + " for production."
  }

  /** The tag a placeholder reply opens with. */
  function PlaceholderLabel(provider: Provider): string
    requires provider != Echo
  {
    match provider
    case OpenAI => "OpenAI"
    case Anthropic => "Anthropic"
    case Groq => "Groq"
    case Local => "Local"
  }

  /** What `call_llm` answers: the provider it routed to, the full prompt it sent, the reply,
    * the model used, and the context length when the provider reports one. */
  datatype Routed = Routed(provider: Provider, fullPrompt: string, reply: string, modelUsed: string, contextLength: Option<nat>)

  /** `call_llm`: resolves the provider, assembles the prompt, and answers with echo or with
    * the provider's placeholder. */
  function CallLlm(model: string, prompt: string, context: string): (r: Routed)
    ensures r.provider == Resolve(SupportedModels, model)
    ensures r.fullPrompt == FullPrompt(context, prompt)
    ensures r.modelUsed == model
    ensures r.provider == Echo ==>
      var e := CallEchoCorrected(model, r.fullPrompt, prompt);
      r.reply == e.reply && r.contextLength == Some(e.contextLength)
    ensures r.provider != Echo ==> r.reply == Placeholder(r.provider, model) && r.contextLength.None?
  {
    var provider := Resolve(SupportedModels, model);
    var full := FullPrompt(context, prompt);
    if provider == Echo then
      var e := CallEchoCorrected(model, full, prompt);
      Routed(provider, full, e.reply, model, Some(e.contextLength))
    else
      Routed(provider, full, Placeholder(provider, model), model, None)
  }

  /** An unsupported model is answered by echo, which reports the context it was given. */
  lemma UnsupportedModelIsEchoed(model: string, prompt: string, context: string)
    requires !IsSupported(SupportedModels, model)
    ensures CallLlm(model, prompt, context).provider == Echo
    ensures CallLlm(model, prompt, context).contextLength == Some(|Strip(context)|)
  {
    SupportAndResolve(SupportedModels, model);
    EchoCorrectedReportsContext(model, context, prompt);
  }
}
