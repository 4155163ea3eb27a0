# Memory cartridge agent: selection and consolidation core

This project models the server-side core of the memory cartridge chat agent in Dafny.
A user query is routed to one of several memory cartridges. The pipeline:

1. lists the stored cartridges;
2. picks one, either the cartridge the caller forced or the one a classifier model chose. When the classifier fails, the choice falls back deterministically;
3. activates that cartridge, so it becomes the only active one;
4. builds the message history for the response model and reads its answer;
5. folds the turn into the cartridge's episodic memory.

The pipeline is modelled against the in-memory `MemStorage`. It is modelled as a class whose id-keyed maps and id counters its methods update in place. The `storage` instance the server actually uses is a `DatabaseStorage` (storage.ts:289); where the two stores behave differently is listed under "Left out".

The two model calls and the clock are inputs:
- **classifier**: the parsed reply, or why there is none;
- **responder**: the completion, or the failed status;
- **clock**: one reading, milliseconds plus its ISO rendering.

`ProcessQuery` also returns the selection prompt and the chat history it would have sent.

## Files

| file | contents |
|---|---|
| `wrappers.dfy` | `Option` and `Result` |
| `js.dfy` | the JavaScript string and array operations the source uses: `slice`, `split(' ')`, `split(/\s+/)`, `join`, `toLowerCase`, decimal rendering and `toFixed` digits |
| `sorting.dfy` | `Array.prototype.sort` with a numeric comparator, as a stable insertion sort |
| `schema.dfy` | records, the insert and update payloads, and the two zod validations |
| `storage.dfy` | `MemStorage` |
| `openrouter.dfy` | classifier reply validation, clamping, fallback and prompt summaries |
| `deepseek.dfy` | message history, response extraction and cost |
| `consolidation.dfy` | key concepts, topic, outcome, the 50-record window and the memory update |
| `selector.dfy` | `processQuery` and `updateCartridgeMemory` |

A JavaScript `Map` iterates in insertion order. Each map of the store therefore carries the sequence of its keys in that order (`cartridgeOrder` and the like). Ids are handed out by increasing counters and never reused, so that sequence is increasing.

Listings sort with `Array.prototype.sort`, which is stable. Ties in the sort key therefore keep map order, which is increasing id order, and the listing lemmas prove this.

## Model

| member | source | states |
|---|---|---|
| Storage.MemStorage.constructor | MemoryCartridgeAgent/server/storage.ts:44-105 | the store starts with no users or messages and the three default cartridges under ids 1, 2 and 3, of which exactly id 1 is active; the user and message counters are 1 and the cartridge counter is 4 after seeding |
| Storage.MemStorage.SeedCartridges | MemoryCartridgeAgent/server/storage.ts:102-104 | creating the seeds in turn in an empty map stores seed k under id k+1, in that insertion order |
| Storage.SeededActivity | MemoryCartridgeAgent/server/storage.ts:57-100 | of the default seeds only the first is active, so the at-most-one-active rule holds from construction |
| Storage.MemStorage.GetUser | MemoryCartridgeAgent/server/storage.ts:108-110 | returns the stored user exactly when the id is a key |
| Storage.MemStorage.GetUserByUsername | MemoryCartridgeAgent/server/storage.ts:112-116 | returns a stored user with that name and no user with a lower id has it; None when no user has it |
| Storage.FindFirstIsLowestId | MemoryCartridgeAgent/server/storage.ts:112-116 | the first match in insertion order is the match with the lowest id |
| Storage.MemStorage.CreateUser | MemoryCartridgeAgent/server/storage.ts:118-123 | the new user gets the counter value as a fresh id, the counter increments and exactly that key is added |
| Storage.MemStorage.GetCartridges | MemoryCartridgeAgent/server/storage.ts:126-130 | lists exactly the stored cartridges, each once, most recently updated first, equal update times in increasing id order; empty iff the store is |
| Storage.CartridgeListing | MemoryCartridgeAgent/server/storage.ts:126-130 | the same for any ordered map, sorting its values in insertion order |
| Storage.RecencyListing | MemoryCartridgeAgent/server/storage.ts:127-129 | sorting an id-ordered list by descending update time keeps its elements and breaks ties by id |
| Storage.MemStorage.GetCartridge | MemoryCartridgeAgent/server/storage.ts:132-134 | returns the stored cartridge exactly when the id is a key |
| Storage.MemStorage.CreateCartridge | MemoryCartridgeAgent/server/storage.ts:136-147 | the counter value becomes a fresh id above every stored id, the counter increments, exactly one key is added, createdAt = updatedAt = now, and an inactive payload leaves the set of active ids unchanged |
| Schema.NewCartridge | MemoryCartridgeAgent/server/storage.ts:139-144 | the stored cartridge copies the payload, takes the id and both timestamps, and is active only when the payload says so. `MemStorage` applies no column defaults: an absent `isActive` stays `undefined`, which every reader in the core treats as false, and the model stores it as false |
| Storage.MemStorage.UpdateCartridge | MemoryCartridgeAgent/server/storage.ts:149-160 | an unknown id returns None and changes nothing; a known id is overwritten by the overlay and only that key changes |
| Schema.ApplyUpdate | MemoryCartridgeAgent/server/storage.ts:153-157 | every supplied field is written, every other field kept, the id and creation time never change, and updatedAt is stamped |
| Storage.MemStorage.DeleteCartridge | MemoryCartridgeAgent/server/storage.ts:162-164 | returns true iff the id was stored and removes only that key |
| Storage.MemStorage.SetActiveCartridge | MemoryCartridgeAgent/server/storage.ts:166-179 | the new map is `Activated(old, id)`: only isActive flags change; a stored id becomes the only active cartridge; an unknown id leaves none active and is no error |
| Storage.MemStorage.DeactivateAll | MemoryCartridgeAgent/server/storage.ts:167-172 | the loop over the map clears every flag and changes nothing else |
| Storage.Activated | MemoryCartridgeAgent/server/storage.ts:166-179 | same keys, each cartridge equal to the old one apart from its flag, at most one active, and the active set is {id} or empty |
| Storage.ActivatedAfterReset | MemoryCartridgeAgent/server/storage.ts:166-179 | deactivating all and then activating the stored id gives `Activated` |
| Storage.MemStorage.Chronological | MemoryCartridgeAgent/server/storage.ts:183-184 | lists exactly the stored messages, oldest first, equal creation times in increasing id order |
| Storage.MessageListing | MemoryCartridgeAgent/server/storage.ts:183-184 | the same for any ordered message map |
| Storage.ChronoListing | MemoryCartridgeAgent/server/storage.ts:184 | sorting an id-ordered list by creation time keeps its elements and breaks ties by id |
| Storage.MemStorage.GetMessages | MemoryCartridgeAgent/server/storage.ts:182-187 | a limit of 0 gives every message; a positive limit gives the last min(limit, n) of the chronological listing; a negative one drops that many from the front |
| Storage.MemStorage.GetMessagesByCartridge | MemoryCartridgeAgent/server/storage.ts:200-204 | exactly the messages of that cartridge, each once, oldest first, ties by id |
| Storage.CartridgeMessageListing | MemoryCartridgeAgent/server/storage.ts:200-204 | the same for any ordered message map |
| Storage.OfCartridge | MemoryCartridgeAgent/server/storage.ts:202 | the filter keeps exactly the messages of the cartridge and keeps ids increasing |
| Storage.MemStorage.CreateMessage | MemoryCartridgeAgent/server/storage.ts:189-198 | the counter value becomes a fresh id, the counter increments and exactly that key is added, stamped with now |
| Sorting.SortBy | MemoryCartridgeAgent/server/storage.ts:127-129 | the result is a permutation of the input, sorted by the key |
| Sorting.SortKeepsTieOrder | MemoryCartridgeAgent/server/storage.ts:127-129 | the sort is stable: equal keys keep the order any rank gives them in the input |
| Sorting.SortOfSorted | MemoryCartridgeAgent/server/storage.ts:184 | a list already in key order is returned unchanged |
| Schema.ParseChatRequest | MemoryCartridgeAgent/shared/schema.ts:92-95 | a request is accepted iff the message has at least one character; the optional forced id passes through |
| Schema.ParseSelectionResult | MemoryCartridgeAgent/shared/schema.ts:97-101 | a selection is accepted iff its score is in [0, 100] |
| OpenRouter.Clamp | MemoryCartridgeAgent/server/services/openrouter.ts:73 | the result is in [0, 100], equals the score inside that range, and is the nearer bound outside it |
| OpenRouter.Acceptable | MemoryCartridgeAgent/server/services/openrouter.ts:67 | a reply is rejected when its id is missing or 0, its score is missing or 0, or its reasoning is missing or empty, and accepted otherwise |
| OpenRouter.FallbackCartridge | MemoryCartridgeAgent/server/services/openrouter.ts:80 | None iff the list is empty; otherwise a member: the first active cartridge, or the first cartridge when none is active |
| OpenRouter.SelectCartridge | MemoryCartridgeAgent/server/services/openrouter.ts:22-87 | an acceptable reply is returned with its id unchecked and its score clamped; anything else gives the fallback cartridge, the first active cartridge or else the first one, with score 50 and the fallback reasoning, failing only on an empty list; every success is a valid selection |
| OpenRouter.ZeroScoreFallsBack | MemoryCartridgeAgent/server/services/openrouter.ts:67-73 | a score of 0 is rejected as falsy and falls back, while a negative score is accepted and clamped to 0 |
| OpenRouter.Summary | MemoryCartridgeAgent/server/services/openrouter.ts:90-97 | each summary carries the cartridge's id, name, description, node count and update time, with absent tags as [] |
| OpenRouter.BuildSelectionPrompt | MemoryCartridgeAgent/server/services/openrouter.ts:89-97 | one summary per cartridge, in list order, with the query |
| OpenRouter.PromptOffersEveryCartridge | MemoryCartridgeAgent/server/services/openrouter.ts:90-97 | an id is offered by the prompt iff it is the id of a listed cartridge |
| DeepSeek.SystemPrompt | MemoryCartridgeAgent/server/services/deepseek.ts:112-132 | the system entry carries the cartridge's name, description and its three memory compartments |
| DeepSeek.BuildMessageHistory | MemoryCartridgeAgent/server/services/deepseek.ts:80-110 | the loop produces `MessageHistory`: the system prompt, the user and assistant turns among the last ten messages, then the new user message |
| DeepSeek.Turns | MemoryCartridgeAgent/server/services/deepseek.ts:93-101 | at most one turn per stored message, and every turn is a user or assistant turn |
| DeepSeek.TurnsFilter | MemoryCartridgeAgent/server/services/deepseek.ts:93-101 | the turns distribute over concatenation, and a single message gives its own turn when it is a user or assistant message and nothing otherwise: the turns are exactly the user and assistant messages, in order |
| DeepSeek.MessageHistory | MemoryCartridgeAgent/server/services/deepseek.ts:84-107 | 2 to 12 entries: the system prompt first, the new user message last, the turns of the last ten stored messages between them, and no system entry in between |
| DeepSeek.CostMicros | MemoryCartridgeAgent/server/services/deepseek.ts:134-141 | the cost of the tokens at 0.000000375 dollars each, in millionths, rounded to nearest |
| DeepSeek.Fixed6 | MemoryCartridgeAgent/server/services/deepseek.ts:140 | the `toFixed(6)` text has at least eight characters: digits, a point seven places from the end, then six digits; the whole part has no leading zero unless it is the single digit 0 |
| DeepSeek.FractionDigits | MemoryCartridgeAgent/server/services/deepseek.ts:140 | the fractional part is exactly six digits and reads back as the remainder |
| DeepSeek.Fixed6RoundTrip | MemoryCartridgeAgent/server/services/deepseek.ts:140 | the `toFixed(6)` rendering reads back as the same number of millionths |
| DeepSeek.Cost | MemoryCartridgeAgent/server/services/deepseek.ts:134-141 | the cost string reads back as the rounded price in millionths |
| DeepSeek.ReadCompletion | MemoryCartridgeAgent/server/services/deepseek.ts:55-73 | success iff the request succeeded and the content is present and non-empty; a failed status propagates, a missing content is NoContent; the token count is total_tokens or 0 and the cost string reads back as its price |
| Consolidation.Keywords | MemoryCartridgeAgent/server/services/cartridge-selector.ts:139 | keeps exactly the words longer than three characters that are not stop words |
| Consolidation.KeywordsFilter | MemoryCartridgeAgent/server/services/cartridge-selector.ts:139 | the first filter distributes over concatenation and keeps a single word iff it is a keyword, so it is the order-preserving filter |
| Consolidation.KeywordsKeepOrder | MemoryCartridgeAgent/server/services/cartridge-selector.ts:139 | two keywords come in the same order among the keywords as in the words, by first occurrence |
| Consolidation.KeywordsOfKeywords | MemoryCartridgeAgent/server/services/cartridge-selector.ts:139 | a list of keywords passes the first filter unchanged |
| Consolidation.FirstOccurrences | MemoryCartridgeAgent/server/services/cartridge-selector.ts:140 | holds every word of the input exactly once, ordered by where each first occurs in the input |
| Consolidation.FirstOccurrencesOfDistinct | MemoryCartridgeAgent/server/services/cartridge-selector.ts:140 | a list without repeats passes the second filter unchanged |
| Consolidation.FirstOccurrencesAppend | MemoryCartridgeAgent/server/services/cartridge-selector.ts:140 | one more word is kept at the end iff it has not occurred before |
| Consolidation.UniqueKeywords | MemoryCartridgeAgent/server/services/cartridge-selector.ts:139-141 | the distinct keywords are ordered by first occurrence in the words, and any beyond the first ten first occurs after the tenth |
| Consolidation.ExtractKeyConcepts | MemoryCartridgeAgent/server/services/cartridge-selector.ts:129-142 | at most ten distinct lower-case whitespace-free keywords of the lower-cased, split text, in order of first occurrence; a keyword is missing only when ten were found and the tenth occurs before it |
| Consolidation.LowerWords | MemoryCartridgeAgent/server/services/cartridge-selector.ts:131 | every word of the lower-cased, split text is lower case |
| Consolidation.KeyConceptsFixedPoint | MemoryCartridgeAgent/server/services/cartridge-selector.ts:129-142 | extracting from the key concepts joined with spaces gives the same key concepts back |
| Consolidation.ExtractTopic | MemoryCartridgeAgent/server/services/cartridge-selector.ts:144-147 | the topic is a prefix of the message; a message with at most four spaces is its own topic; otherwise the topic holds exactly four spaces and stops right before the fifth space of the message |
| Consolidation.TopicOfPieces | MemoryCartridgeAgent/server/services/cartridge-selector.ts:146 | the same facts for the first five pieces of `split(' ')` joined back |
| Consolidation.TopicCut | MemoryCartridgeAgent/server/services/cartridge-selector.ts:146 | with more than five pieces, the join of the first five is followed in the message by a space and has four spaces |
| Consolidation.Outcome | MemoryCartridgeAgent/server/services/cartridge-selector.ts:99 | the first min(200, n) characters of the response followed by "...", which is appended even when nothing was cut |
| Consolidation.NewConversation | MemoryCartridgeAgent/server/services/cartridge-selector.ts:94-100 | the record's id encodes the clock's milliseconds in canonical digits, its timestamp is the clock's ISO text, its topic is the user message's topic, its key concepts are those of the user message, a space and the response, it has no embedding, and its one outcome is the response's outcome |
| Consolidation.ConversationIdDigits | MemoryCartridgeAgent/server/services/cartridge-selector.ts:95 | the id is "conv_" followed by digits without a leading zero (unless the milliseconds are 0) that read back as the milliseconds |
| Consolidation.Consolidated | MemoryCartridgeAgent/server/services/cartridge-selector.ts:103-109 | the new record is last, the length is min(n + 1, 50), and when full the oldest record is dropped first |
| Consolidation.ConsolidatedMetadata | MemoryCartridgeAgent/server/services/cartridge-selector.ts:112-116 | one more node and 0.001 more MB; version, author and tags are kept |
| Consolidation.MemoryUpdate | MemoryCartridgeAgent/server/services/cartridge-selector.ts:119-122 | the update supplies only the episodic memory and the metadata |
| Consolidation.ConsolidationTouchesOnlyMemory | MemoryCartridgeAgent/server/services/cartridge-selector.ts:111-122 | applied to its cartridge, the update keeps id, texts, semantic and procedural memory and activation, puts the record last in at most 50, and adds one node |
| CartridgeSelector.Select | MemoryCartridgeAgent/server/services/cartridge-selector.ts:23-47 | no cartridges fails first; a forced id (0 counts as not forced) succeeds with score 100 and the manual reasoning iff it is listed; otherwise the classifier's selection is used; every success is valid |
| CartridgeSelector.IsForced | MemoryCartridgeAgent/server/services/cartridge-selector.ts:31 | an absent id and the id 0 do not force a cartridge; any other id does |
| CartridgeSelector.ForcedSelectionIgnoresClassifier | MemoryCartridgeAgent/server/services/cartridge-selector.ts:31-42 | a forced selection does not depend on the classifier's reply |
| CartridgeSelector.ZeroForceIsAutomatic | MemoryCartridgeAgent/server/services/cartridge-selector.ts:31 | forcing id 0 is the same as forcing nothing |
| CartridgeSelector.UpdateCartridgeMemory | MemoryCartridgeAgent/server/services/cartridge-selector.ts:84-127 | the stored cartridge becomes the overlay of the memory update on it, an unknown id changes nothing, and the active set is unchanged |
| CartridgeSelector.ProcessQuery | MemoryCartridgeAgent/server/services/cartridge-selector.ts:15-82 | every selection failure and an unresolved id leave the store unchanged; otherwise the history is built from the 20 most recent messages, a responder failure leaves only the activation, and success leaves the selected cartridge the only active one with the turn consolidated into its memory |
| CartridgeSelector.Respond | MemoryCartridgeAgent/server/services/cartridge-selector.ts:55-77 | activation, history, response and consolidation in that order, with the resulting store state |
| CartridgeSelector.ActivateAndRecall | MemoryCartridgeAgent/server/services/cartridge-selector.ts:56-59 | activation changes only the cartridge map, so the recent messages read afterwards are those before it |
| Js.SliceFrom | MemoryCartridgeAgent/server/services/deepseek.ts:93 | `slice(-n)` gives the last min(n, length) elements |
| Js.Take | MemoryCartridgeAgent/server/services/cartridge-selector.ts:141 | `slice(0, n)` is a prefix of min(n, length) elements |
| Js.NatToDecimal | MemoryCartridgeAgent/server/services/cartridge-selector.ts:95 | a number is written as decimal digits whose first digit is 0 exactly when the number is 0, and 0 is written as the single digit "0" |
| Js.ToLower | MemoryCartridgeAgent/server/services/cartridge-selector.ts:131 | the result has the same length and is lower case, and a lower-case string comes back unchanged |
| Js.SplitOn | MemoryCartridgeAgent/server/services/cartridge-selector.ts:146 | `split(' ')` gives at least one piece, no piece contains the separator, and the pieces joined with it give the string back |
| Js.Join | MemoryCartridgeAgent/server/services/cartridge-selector.ts:146 | the first piece is a prefix of the join, and the join of separator-free pieces holds one separator fewer than there are pieces; that the separators fall exactly between consecutive pieces is stated by Js.SplitJoinOn and Js.SplitOn |
| Js.SplitJoinOn | MemoryCartridgeAgent/server/services/cartridge-selector.ts:146 | splitting the join of separator-free pieces gives the pieces back, so split and join are inverse |
| Js.SplitOnLength | MemoryCartridgeAgent/server/services/cartridge-selector.ts:146 | `split(' ')` has one more piece than the string has spaces |
| Js.SplitWhitespace | MemoryCartridgeAgent/server/services/cartridge-selector.ts:131 | `split(/\s+/)` gives at least one piece and every piece is free of whitespace |
| Js.SplitWhitespaceChars | MemoryCartridgeAgent/server/services/cartridge-selector.ts:131 | every character of every piece is a character of the text |
| Js.SplitWhitespaceShape | MemoryCartridgeAgent/server/services/cartridge-selector.ts:131 | the pieces between the first and the last are non-empty; the first is empty iff the text is empty or starts with whitespace, the last iff it is empty or ends with whitespace |
| Js.SplitWhitespaceSqueezed | MemoryCartridgeAgent/server/services/cartridge-selector.ts:131 | the pieces joined with single spaces give the text with each maximal run of whitespace replaced by one space, so in order they are the text with its whitespace removed |
| Js.SplitWhitespaceBySqueeze | MemoryCartridgeAgent/server/services/cartridge-selector.ts:131 | `split(/\s+/)` equals `split(' ')` of the squeezed text |
| Js.SplitWhitespaceJoin | MemoryCartridgeAgent/server/services/cartridge-selector.ts:131 | non-empty whitespace-free pieces joined with spaces split back into the same pieces |

## Left out

- `DatabaseStorage` is not part of this model: it is SQL through an ORM. The exported `storage` instance is a `DatabaseStorage` (storage.ts:289), and it differs from the modelled `MemStorage` in ways the model does not capture:
  - its `getMessages(limit)` orders by creation time and applies `LIMIT`, so it returns the OLDEST `limit` messages (storage.ts:266-269). With it, the history `processQuery` builds is drawn from the 20 oldest messages, not the 20 most recent;
  - its `updateCartridge` writes the payload as given and does not stamp `updatedAt` (storage.ts:244-251), so a consolidation does not move the cartridge up the recency listing;
  - its `getCartridges` orders by `updatedAt` with no tiebreak and then reverses the rows (storage.ts:226-229), so cartridges with equal `updatedAt` come in an order the database chooses, not in increasing id order.
- The default `limit = 100` of `getMessages` (storage.ts:182 and 266) is not modelled: the model's `GetMessages` always receives a limit, and the core passes 20 (cartridge-selector.ts:59).
- HTTP transport, API keys and environment reads are not modelled. The classifier's and the responder's outcomes are `Result` inputs.
- JSON parsing of the classifier's content and JSON rendering of the prompts are not modelled. The prompt text is represented by the data it renders: the query and the summaries, or the cartridge's memory parts.
- The classifier's fields are modelled as an optional integer id, an optional integer score and an optional string. The validation (openrouter.ts:67) only tests truthiness, so `true`, `{}`, `[]` and non-numeric strings also pass it. `Math.min`/`Math.max` then coerce a truthy score to a number: `true` becomes 1, a numeric string such as "85" becomes 85, `[]` becomes 0 and `[150]` becomes 150, clamped to 100; fractional numbers are clamped as they are. Only a score whose coercion is not a number (`{}`, a non-numeric string, an array of several elements) gives `NaN`, which is the one case where the score leaves [0, 100]; the model has neither these coercions nor fractional scores. An id that is not an integer key (a string such as "2", `true`) passes the selection and then fails the `MemStorage` lookup with "Selected cartridge not found" (cartridge-selector.ts:50-53).
- The system prompt's fixed instruction text and the classifier's system message are left out.
- `Date.now()`, `new Date()` and `toISOString()` become integer or string parameters, and one clock reading serves a whole consolidation.
- Storage.MemStorage.constructor: all three seeds are stamped with the same `now`; the source reads the clock once per created cartridge.
- Consolidation.ConsolidatedMetadata: `sizeMb + 0.001` is exact `real` addition; binary floating-point rounding is not modelled.
- DeepSeek.CostMicros: the price is computed exactly in millionths with exact ties rounded up. The source multiplies binary floats, whose representation error can move a tie either way before `toFixed(6)`.
- Js.ToLower: only ASCII and Latin-1 capitals are lowered. Lowercasing of other scripts, and string lengths counted in UTF-16 units, are not modelled.
- Logging and the interleaving of concurrent requests at each `await` are not modelled. The source has no locking, so concurrent queries can interleave.
- CartridgeSelector.UpdateCartridgeMemory: the `catch` (cartridge-selector.ts:123-126) is left out, and the model's cartridge types exclude the inputs on which it fires. The insert schema lets a cartridge leave out any of its three memory compartments (shared/schema.ts:10-12, `.default({})`): `MemStorage` then stores the compartment as `undefined`, the database stores `{}` without a `conversations` array, and an uploaded cartridge file is sent unchecked (CreateCartridgeModal.tsx:92). For a cartridge whose episodic memory is missing or has no `conversations` array, spreading it (cartridge-selector.ts:103-108) throws, the `catch` swallows the error, and `processQuery` still answers the query but consolidates nothing: no record is added, the node count is unchanged and `updatedAt` is not stamped. The model requires every compartment and a `conversations` list, so `ProcessQuery`'s promise that a successful turn is consolidated holds only for such cartridges.
- HTTP route handlers, the seeding script and the client UI are not part of this model. Neither is the persistence of chat messages, which happens in the route handlers.

## Notes on the source

- On an empty list `selectCartridge`'s catch reads the `id` of `cartridges[0]`, which is `undefined`, and throws (openrouter.ts:80-85); the model returns `NoFallbackCartridge` there. `processQuery` only consults the classifier for a non-empty list, so in the pipeline this cannot happen.
- `createCartridge` and `updateCartridge` store whatever `isActive` the payload carries. A second active cartridge can therefore be created or updated into the store, and the at-most-one-active rule holds only through `setActiveCartridge`. The model keeps this: their contracts preserve the active set only for payloads that do not set the flag.
- A classifier score of 0 is falsy and falls back to score 50, while a negative score is accepted and clamped to 0.
- The outcome always gets "..." appended, even when the response had 200 characters or fewer.
- `getMessages(0)` returns every message.
- Activating an unknown id leaves no cartridge active and raises no error.
