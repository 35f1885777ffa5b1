# Chimera Protocol memory core, in Dafny

A model of the core of the Chimera Protocol API: a Django service that stores *memories*,
short text fragments that belong to a conversation or are shared team-wide, and feeds them
back into LLM prompts. The model covers:

- the memory and chat records with their string forms and default orderings (`models.dfy`);
- the memory endpoints (`views.dfy`), over a `MemoryStore` class that holds the memory table as a
  `seq<Memory>` and the next id:
  - remember, inject and list;
  - delete by id and clear by conversation;
  - batch remember;
  - the chat turn's context block, routing and remembering;
  - the index health verdict;
  - the `{ok, data, error}` response envelope;
- the model router (`llm_router.dfy`):
  - the ordered table of supported models;
  - provider resolution by exact key, first prefix, then `echo`;
  - the support predicate and the grouping of models by provider;
  - prompt assembly, the echo provider, and the placeholder replies of the other providers;
- the page importer's text processing (`url_scraper.dfy`):
  - `clean_text`;
  - the basic mode's content selection and length checks on already-extracted text;
  - the paragraph-packing `summarize_content`.

`strings.dfy` gives the Python string operations the code relies on, such as `strip`, `split`, slicing and `str(int)`. `wrappers.dfy` holds `Option` and `Result`.

How the source is rendered in the model:

- ORM queries are filters over the stored sequence. `Criterion` plays the part of Django's `Q`.
- `order_by('-created_at')` is an insertion sort specified only as non-increasing in
  `created_at`. The order of memories with equal timestamps is left open.
- A slice `[a:b]` is Python slice semantics. A negative bound is the ORM's "Negative indexing is
  not supported." error, which the endpoints report as their error.
- A serializer's verdict reaches the endpoints as an `Option`: `None` is a rejected request.
- The clock is the parameter `now`.

Where a loop in the source changes things step by step, the model is a method with a loop. That
method is proved equal to a specification function, or proved to leave the store in a stated
state. The properties are proved about those functions.

## Model

| member | source | states |
|---|---|---|
| Models.Scope.Name | api/models.py:46-49 | a scope is stored as exactly `conversation` or `team-global` |
| Models.ParseScope | api/models.py:46-62 | only the two declared values read back as scopes, and each reads back as the scope it names |
| Models.ScopeRoundTrip | api/models.py:46-62 | every scope survives being stored and read back |
| Models.Preview | api/models.py:86 | a preview is the text when at most 50 characters, else 53 characters starting with the first 50 of the text |
| Models.PreviewCases | api/models.py:86 | a short text is its own preview; a long one becomes its first 50 characters and `...` |
| Models.ScopeInfo | api/models.py:87 | the scope tag is non-empty exactly for team-global memories |
| Models.MemoryStrParts | api/models.py:85-88 | `Memory {id}{scope_info}: {preview}`: the digits after `Memory ` parse back to the id, the next character is a space iff the memory is team-global (then ` [team-global]: ` follows, else `: `), and the form ends with the preview |
| Models.ChatMessageStr | api/models.py:123-125 | a message's string form starts with its role |
| Models.ChatMessageStrParts | api/models.py:123-125 | the form is the role, then ` [{model}]: ` with the model's name when a non-empty model is named and `: ` otherwise, then the first 50 characters of the content with no ellipsis, and nothing else |
| Models.ConversationStr | api/models.py:37-38 | `Conversation {id} - ` then the title, or `Untitled` when the title is empty, with the exact length |
| Models.SortBy | api/models.py:78 | the result is sorted by the key and a permutation of the input |
| Models.MemoryOrder | api/models.py:77-78 | memories in default order are newest first and a permutation of the input |
| Models.MessageOrder | api/models.py:117-118 | messages in default order are oldest first and a permutation of the input |
| Views.ApiResponse | api/views.py:24-32 | `ok` iff success; `data` present iff ok; `error` present iff not ok |
| Views.EnvelopeRoundTrip | api/views.py:24-32 | an envelope reads back as exactly the outcome it was built from |
| Views.MatchesVisible | api/views.py:350-352 | a memory is visible to a conversation iff it is the conversation's own or team-global |
| Views.Filter | api/views.py:350-352 | a filter keeps only matching memories and never adds any |
| Views.FilterMembers | api/views.py:350-352 | a memory is selected iff it is stored and matches |
| Views.FilterPartition | api/views.py:686 | a criterion and its negation split the store between them |
| Views.FilterUnique | api/views.py:666-667 | filtering keeps ids unique |
| Views.RemoveAtIsFilter | api/views.py:666-667 | with unique ids, removing the record at an index is filtering out its id |
| Views.Query | api/views.py:350-352 | `filter(..).order_by('-created_at')` returns newest first exactly the matching memories |
| Views.RecentVisible | api/views.py:347-352 | at most `max` memories (fewer only if fewer are visible), each stored and of the conversation or team-global, newest first, and none returned more often than it is stored among the visible ones |
| Views.RecentVisibleIsNewest | api/views.py:350-352 | a visible memory is returned, or the cap is filled with memories at least as recent as it |
| Views.TakeKeepsNewest | api/views.py:352 | the first `max` of a newest-first list hold a given element, or `max` elements at least as recent as it |
| Views.ContextLine | api/views.py:359-360 | a line is `- [GLOBAL] text` for a team-global memory and `-  text` otherwise |
| Views.ContextLineShowsScope | api/views.py:359-360 | the third character of a line is `[` iff the memory is team-global |
| Views.InjectTextEmptyExactly | api/views.py:369 | the injected context is `No previous memories found.` iff nothing was selected |
| Views.InjectTextLines | api/views.py:358-369 | with line-free texts, the injected context splits back into one line per selected memory |
| Views.ChatTextIsHeaderedInjectText | api/views.py:474-480 | the chat block is empty when nothing is selected, else `=== Relevant Context ===` over the same lines inject renders |
| Views.NewMemory | api/views.py:264-270 | a remembered memory carries the request's text and conversation, the given tags or none, the given scope or `conversation`, and the next id |
| Views.AcceptedMembers | api/views.py:714-716 | a request is kept iff the serializer accepted it |
| Views.NewMemories | api/views.py:714-724 | accepted requests become memories with consecutive ids |
| Views.Summaries | api/views.py:725-728 | each created memory is reported by its id and the preview of its text |
| Views.IndexHealth | api/views.py:987 | `healthy` iff the indexed count equals the number of memories |
| Views.ChatAnswerTrace | api/views.py:457-536 | a chat turn uses the given model or `echo`, routes it as the table says, counts as hits the (at most 10) memories in its context block, reports context injected iff there are hits, and reports the extractor's count of saved facts iff the turn is remembered (0 otherwise) |
| Views.ChatContextTokens | api/views.py:529 | the reported context tokens are the stripped length of the context block for echo (as the corrected echo measures it), and 0 for providers that report none |
| Views.TurnMemories | api/views.py:493-507 | a remembered turn stores `User: {message}` and `Assistant ({model}): {reply}` with their tags in the conversation |
| Views.EchoUndercountsRememberedTurn | api/llm_router.py:171-172 | with a remembered turn in view, the echo as written reports 26 characters of a 36-character context; the corrected echo reports 36 |
| Views.MemoryStore.Create | api/views.py:264-270 | appends the new memory under the next id and advances it, keeping ids unique |
| Views.MemoryStore.Remember | api/views.py:252-283 | a rejected request changes nothing; an accepted one appends exactly its new memory |
| Views.MemoryStore.Inject | api/views.py:334-378 | a rejected request is an error, a negative cap is the ORM's error, else the memories are `RecentVisible` with the default cap 10, the context their rendering, and the count their number |
| Views.MemoryStore.InjectLines | api/views.py:355-367 | the loop yields one context line per selected memory, in order, and lists exactly the selected memories |
| Views.MemoryStore.ChatContext | api/views.py:466-480 | the context is the chat block of the ten newest visible memories, and the hits are their number |
| Views.MemoryStore.ChatLines | api/views.py:477-481 | the loop yields the header followed by one context line per selected memory, and counts every memory as a hit |
| Views.MemoryStore.ListMemories | api/views.py:393-422 | a missing or empty conversation is an error; a negative bound is the ORM's error; else the page is the slice `[offset, offset+limit)` of that conversation's memories newest first, with the total before slicing and defaults 20 and 0 |
| Views.MemoryStore.Chat | api/views.py:449-541 | a rejected request changes nothing; else it answers `ChatAnswer` over the store before the turn; when asked to remember it appends the turn's two memories and then the extractor's facts under the next ids, and otherwise changes nothing |
| Views.MemoryStore.CreateAll | api/views.py:511-513 | the extractor's facts are appended in order as new memories under consecutive ids |
| Views.MemoryStore.RememberTurn | api/views.py:493-507 | the user's message and then the reply are appended under the next two ids, nothing else changes |
| Views.MemoryStore.Delete | api/views.py:661-677 | success iff a memory with the id is stored; the store becomes the others in order; not found leaves it unchanged |
| Views.MemoryStore.ClearConversation | api/views.py:682-695 | removes exactly the conversation's memories, whatever their scope, keeps the rest in order, and reports how many went |
| Views.MemoryStore.BatchRemember | api/views.py:703-738 | a missing or empty list is an error and changes nothing; else every accepted entry is appended in order with consecutive ids, and `created` is their number |
| Views.MemoryStore.Status | api/views.py:978-987 | reports the store size and the indexed count, healthy iff they are equal |
| LlmRouter.SupportedModelsAreADictionary | api/llm_router.py:10-30 | the table's keys are distinct, as a dictionary's are |
| LlmRouter.FindKey | api/llm_router.py:44-45 | finds a key equal to the name, and finds none iff there is none |
| LlmRouter.FirstPrefix | api/llm_router.py:48-50 | finds the first key, in table order, that is a prefix of the name, and none iff no key is |
| LlmRouter.LookupProvider | api/llm_router.py:43-53 | the exact lookup and the prefix loop with early return compute `Resolve` over any table |
| LlmRouter.GetProvider | api/llm_router.py:33-53 | the provider of a name is `Resolve` over the supported models |
| LlmRouter.ResolveExact | api/llm_router.py:44-45 | a name that is a key resolves to that key's provider |
| LlmRouter.ResolveFirstPrefix | api/llm_router.py:48-50 | otherwise a name resolves to the provider of the first key that prefixes it |
| LlmRouter.ResolveDefault | api/llm_router.py:53 | a name no key equals or prefixes resolves to `echo` |
| LlmRouter.ProviderIsListed | api/llm_router.py:10-53 | every resolved provider is one the table lists |
| LlmRouter.ExactLookupAgreesWithPrefixScan | api/llm_router.py:44-50 | over this table, the exact lookup gives the same provider the prefix scan alone would |
| LlmRouter.IsSupported | api/llm_router.py:200-202 | supported iff some key equals or prefixes the name |
| LlmRouter.SupportAndResolve | api/llm_router.py:200-202 | an unsupported name resolves to `echo` |
| LlmRouter.ProvidersOf | api/llm_router.py:212-216 | the providers in first-appearance order: a provider is listed iff some entry has it |
| LlmRouter.ProvidersOfNoDuplicates | api/llm_router.py:214-215 | no provider is listed twice |
| LlmRouter.ModelsOfListsEveryKey | api/llm_router.py:213-216 | every key appears in its provider's list |
| LlmRouter.GroupsCoverTable | api/llm_router.py:212-218 | the group sizes add up to the number of table entries |
| LlmRouter.GroupStep | api/llm_router.py:213-216 | one more entry adds its provider to the order when new and its key to that provider's list, keeping the grouping exact |
| LlmRouter.GroupByProvider | api/llm_router.py:212-218 | the loop over any table builds the grouping: exactly the listed providers, each with its keys in table order, sizes summing to the table size |
| LlmRouter.GetSupportedModels | api/llm_router.py:205-218 | the loop builds a map holding exactly the listed providers, each with its models in table order, whose sizes sum to the table size |
| LlmRouter.FullPrompt | api/llm_router.py:71 | the prompt alone without context; else the context, `\n\nUser: ` and the prompt |
| LlmRouter.CallEcho | api/llm_router.py:166-187 | context reported iff `User:` occurs; its length is that of the stripped text before the first marker (so at most the marker's index), and 0 when absent; tokens are the whitespace-separated words |
| LlmRouter.EchoSeesContextInBarePrompt | api/llm_router.py:171-172 | as written, with no context and the prompt `User: hi`, echo reports context of length 0; the corrected echo reports none |
| LlmRouter.EchoWithContext | api/llm_router.py:173-174 | the echo reply for a prompt with context starts with `[Echo Mode - {model}]` and a blank line |
| LlmRouter.EchoWithoutContext | api/llm_router.py:175-176 | so does the echo reply for a prompt without context |
| LlmRouter.FullPromptWords | api/llm_router.py:71 | the words of an assembled prompt are the context's, `User:`, then the prompt's |
| LlmRouter.EchoOfAssembledPrompt | api/llm_router.py:71-83 | with a context free of `User:`, echo reports the stripped context length and one word more than context and prompt |
| LlmRouter.EchoOfBarePrompt | api/llm_router.py:71-83 | without context and without `User:` in the prompt, echo reports no context |
| LlmRouter.ContextOf | api/llm_router.py:71 | recovers a non-empty context that, assembled with the prompt, gives the full prompt |
| LlmRouter.ContextOfFullPrompt | api/llm_router.py:71 | the context of an assembled prompt is recovered exactly, and none when it was empty |
| LlmRouter.CallEchoCorrected | api/llm_router.py:166-187 | the echo provider with the context measured by `ContextOf` |
| LlmRouter.EchoCorrectedReportsContext | api/llm_router.py:171-185 | the corrected echo reports context iff some was injected, and its stripped length, for any context |
| LlmRouter.Placeholder | api/llm_router.py:84-163 | the fixed reply of a provider that is not wired up names it and the model |
| LlmRouter.CallLlm | api/llm_router.py:56-83 | routes by `Resolve`, sends the assembled prompt, answers with (corrected) echo or the placeholder, and uses the given model |
| LlmRouter.UnsupportedModelIsEchoed | api/llm_router.py:73-83 | an unsupported model is answered by echo, which (as the corrected echo) reports the context's stripped length |
| UrlScraper.Collapse | api/url_scraper.py:30 | no longer than its input, empty iff the input is, starting with whitespace iff the input does, with every whitespace character a space and no two in a row |
| UrlScraper.WordsOfCollapse | api/url_scraper.py:30 | collapsing keeps the words, so each whitespace run between words survives as one space |
| UrlScraper.CollapseKeepsNonWs | api/url_scraper.py:30 | collapsing keeps the non-whitespace characters in order |
| UrlScraper.CleanText | api/url_scraper.py:27-31 | empty input gives `""`; the result is no longer than the input |
| UrlScraper.CleanTextIsClean | api/url_scraper.py:30-31 | clean text has no whitespace at its ends and only single spaces inside, and keeps the non-whitespace characters in order |
| UrlScraper.CleanTextIdempotent | api/url_scraper.py:30-31 | cleaning twice is cleaning once |
| UrlScraper.CleanTextWords | api/url_scraper.py:27-31 | clean text is the words of the input joined by single spaces |
| UrlScraper.WordsOfCleanText | api/url_scraper.py:27-31 | clean text is empty iff the input has no words, and otherwise splits at spaces into exactly those words |
| UrlScraper.FirstLong | api/url_scraper.py:68-73 | the first selector whose cleaned text is longer than 100 characters, or none if none is |
| UrlScraper.LastFound | api/url_scraper.py:68-71 | the last selector that matched, or none if none did |
| UrlScraper.PageContentIsClean | api/url_scraper.py:67-76 | the chosen content is clean text |
| UrlScraper.SelectContent | api/url_scraper.py:67-76 | the selector loop with its break and the body fallback computes `PageContent` |
| UrlScraper.CapContent | api/url_scraper.py:78-82 | error iff shorter than 50; else the content, or its first 30000 characters and `\n[truncated]` |
| UrlScraper.PageTitle | api/url_scraper.py:64-84 | at most 200 characters: a prefix of the cleaned title, all of it when short, `Imported` without a title |
| UrlScraper.ScrapeBasic | api/url_scraper.py:50-84 | a scheme other than http or https is rejected; else the result is the length checks on the chosen content, with the capped title |
| UrlScraper.ImportedContentIsClean | api/url_scraper.py:78-84 | imported content came from at least 50 characters and is clean, or starts with the first 30000 characters of the chosen content |
| UrlScraper.NonBlank | api/url_scraper.py:177 | paragraphs are non-empty and stripped |
| UrlScraper.NonBlankSnoc | api/url_scraper.py:177 | one more line adds its stripped text iff that is not blank |
| UrlScraper.NonBlankAppend | api/url_scraper.py:177 | the paragraphs of two runs of lines are those of the first, then those of the second |
| UrlScraper.NonBlankMembers | api/url_scraper.py:177 | a string is a paragraph iff it is the non-empty stripped text of some line |
| UrlScraper.WholeCount | api/url_scraper.py:185-195 | every whole paragraph taken fit after those before it (each counted as length + 1), and the next one does not |
| UrlScraper.Packed | api/url_scraper.py:185-195 | the whole paragraphs, then the first `remaining` characters of the next with `...` exactly when more than 100 are left |
| UrlScraper.PackedNotEmpty | api/url_scraper.py:197-198 | with any paragraph, something is packed, so the second fallback is never taken |
| UrlScraper.WithNote | api/url_scraper.py:200-204 | the note `[Content truncated from N to M characters]` is appended iff the content is longer than the joined parts |
| UrlScraper.SummaryLeadsWithFirstParagraph | api/url_scraper.py:177-200 | a long summary opens with its first paragraph, cut to 2000 characters |
| UrlScraper.SummaryDropsParagraphSilently | api/url_scraper.py:200-204 | as written, a 2001-character content loses its last paragraph with no note; the corrected summary notes it |
| UrlScraper.CorrectedSummaryNotesEveryLoss | api/url_scraper.py:200-204 | a corrected summary without the note holds every paragraph whole |
| UrlScraper.SummarizeContent | api/url_scraper.py:164-206 | the loop computes `Summarized`: `""` for empty, the content when at most 2000, the first 2000 characters and `\n[truncated]` without paragraphs, else the packed paragraphs joined by blank lines with the note |
| Strings.Strip | api/url_scraper.py:31 | Python's `strip`: no whitespace at the ends, no longer than the input |
| Strings.StripIsSlice | api/url_scraper.py:31 | the stripped text is a slice of the input with only whitespace outside it |
| Strings.Split | api/url_scraper.py:177 | Python's `split(c)`: at least one piece, none holding the separator, joining back to the input |
| Strings.SplitJoin | api/url_scraper.py:177 | splitting undoes joining with a separator no part holds |
| Strings.Words | api/llm_router.py:182 | Python's `split()`: its words are non-empty and contain no whitespace (which words they are is `UrlScraper.CleanTextWords`) |
| Strings.IndexOf | api/llm_router.py:171-172 | the first occurrence of a pattern, and none iff it does not occur |
| Strings.DecimalRoundTrip | api/models.py:88 | an id's decimal digits parse back to the id |

## Left out

- Authentication and profile views: thin wrappers over Django auth and JWT tokens.
- mcp_search, and the similarity index's `search`, `store` and `rebuild_index`: `memory_service` is not part of this model. The health verdict takes the index size as a parameter. The index write in `batch_remember` is not modelled.
- The fact extractor called by `chat_view` after a remembered turn: `memory_extractor` is not part of this model. `Chat` takes the facts it saves as the parameter `extracted`, stores them after the turn, and reports their number. Which spans the extractor picks, and the tags it gives them, are not modelled.
- Network fetching, HTML parsing and the advanced (browser) mode of the page importer: these are foreign libraries and I/O. `ScrapeBasic` takes the URL's scheme and the parsed page as parameters. Request failures and timeouts are not modelled.
- `spec_hook` and the database probe of `health_check`: file and database I/O.
- Serializer validation: the serializers are not part of this model. A request arrives as `None` (rejected) or as its validated fields, and every rejection gets one fixed error text.
- Timestamps, `isoformat`, `time.time()` and execution times: `created_at` is an integer and the clock is the parameter `now`.
- The `metadata`, `embedding` and `updated_at` fields of a memory, and the `memories` dicts of inject: the model returns the memory records themselves.
- Conversation and message CRUD, team members, the ORM's own behaviour, and `urls.py`.
- Unicode whitespace: `\s` and `str.strip()` are modelled on the six ASCII whitespace characters.
- `int()` parsing of `limit` and `offset`: they arrive as integers. Exceptions that become HTTP 500 are not modelled, apart from the ORM's negative-index error.
- Models.MemoryOrder: the order among memories with equal `created_at` is not stated, because the source does not fix it.
- UrlScraper.SummarizeContent: the `title` argument is unused by the source and ignored.
- LlmRouter.CallLlm: it answers with the corrected echo (see Findings). So its echo reply and context length differ from the source's in two cases. One is a context holding `User:`. The other is a bare prompt holding `User:`: `CallEcho("echo", "User: hi", "User: hi")` reports context, while the corrected echo reports none (`LlmRouter.EchoSeesContextInBarePrompt`).
- LlmRouter.UnsupportedModelIsEchoed: the context length it states is the corrected echo's. `CallEcho` as written reports less for a context holding `User:`, and reports context for a bare prompt holding `User:`.
- Views.ChatContextTokens: the context tokens it states are the corrected echo's, for the same reason. As written, a remembered turn in view makes echo report 26 characters of a 36-character block (`Views.EchoUndercountsRememberedTurn`).
- Views.MemoryStore.Chat: its reply and trace are those of the corrected echo. For the two cases above they differ from what `chat_view` returns as written.

## Findings

| source | as written | input that shows it | evidently intended | confidence | as-written member | corrected member |
|---|---|---|---|---|---|---|
| api/llm_router.py:171-172 | echo measures the context as the stripped text before the first `User:` in the full prompt | after a chat turn with `remember`, the stored memory `User: hi` is in the next turn's context block `=== Relevant Context ===\n-  User: hi` (36 characters); echo reports 26. With no context and the prompt `User: hi`, echo reports context received | the length of the injected context (36), and no context reported when none was injected | medium, not executed | LlmRouter.CallEcho, Views.EchoUndercountsRememberedTurn, LlmRouter.EchoSeesContextInBarePrompt | LlmRouter.CallEchoCorrected, LlmRouter.EchoCorrectedReportsContext |
| api/url_scraper.py:200-204 | the truncation note is added only when the content is longer than the joined summary | 1995 × `x`, then lines `a`, `a`, `b` (2001 characters): `b` is dropped, and the three kept paragraphs joined by `\n\n` are also 2001 characters, so no note | a note whenever a paragraph is dropped or cut | medium, not executed | UrlScraper.Summarized, UrlScraper.SummaryDropsParagraphSilently | UrlScraper.SummarizedCorrected, UrlScraper.CorrectedSummaryNotesEveryLoss |
