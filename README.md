# JUJU message handler — a Dafny model

JUJU is a Discord bot (`index.js`) that relays mentions to a Gemini model
and keeps a short conversation memory per user. This project models the
sequential core of its `messageCreate` handler:

- **Classification** (`Classifier`): bot authors and messages that do not
  mention the bot are ignored; the first `<@id>` and then the first `<@!id>`
  marker are cut out and the text is trimmed; an empty text gets a nudge;
  the lower-cased text is matched exactly against `reset`, `help`, `ping`
  and `about`; otherwise a `search ` / `ask ` prefix sets the web-search
  flag and the keyword with its whitespace run is stripped.
- **Memory** (`Memory`): a `MemoryTable` class whose `entries` field maps a
  user id to a history of turns. `reset` deletes the entry, the first
  conversational message installs an empty history, and each exchange
  pushes a user turn and an assistant turn and then evicts from the front
  so that at most `2 * MAX_MEMORY` = 20 turns remain. The window is
  specified by the function `Exchange`; the lemmas show that it keeps the
  most recent turns in order (first-in first-out), that N exchanges leave
  `min(2N, 20)` turns, and that histories stay made of complete
  user/assistant pairs.
- **Prompt assembly** (`Prompt`): the user turn is the clean prompt, or the
  `User replied to:` wrapper around the quoted message and the prompt; the
  contents are the system turn, the history and the user turn.
- **Reply** (`Reply`): the tool list is non-empty exactly for search
  requests, the reply is the backend text or the fixed fallback when that
  text is missing or empty, and the message sent is its first 2000
  characters.
- **Handler** (`Handler`): `HandleMessage` classifies a message and
  `Respond` acts on the outcome against the table, returning what is sent
  and what is asked of the backend.

Inputs that come from outside the handler are parameters: the author's bot
flag, whether the bot is mentioned, the raw text, the bot's id, the text of
the message being replied to (`Option`), the system prompt (an opaque
string) and the backend's answer text (`Option`).

Strings are sequences of characters. Whitespace is the full ECMAScript
WhiteSpace and LineTerminator set (what `trim` removes and `\s` matches);
lower-casing is restricted to ASCII letters.

## Model

| member | source | states |
|---|---|---|
| Text.LowerChar | index.js:66 | an ASCII capital becomes the small letter 32 code points above it, every other character is unchanged, and the result is never an ASCII capital |
| Text.RemoveFirst | index.js:55-57 | `replace` with a literal pattern: if the pattern does not occur the text is unchanged, otherwise the first occurrence (no match before it) is cut out and the rest kept in order |
| Text.Trim | index.js:58 | the result is the text between a leading and a trailing whitespace run, starts and ends with a non-space, and is empty exactly when the input is all whitespace |
| Classifier.CleanContent | index.js:55-60 | the content is the text left after cutting out the first `<@id>` and then the first `<@!id>`, taken between its leading and its trailing whitespace runs; it has no surrounding whitespace and is empty exactly when nothing but whitespace remained after the markers were removed |
| Classifier.StripSearchKeyword | index.js:106-109 | when the content starts with `search` or `ask` in any ASCII case and a whitespace character, the result is the content without that keyword and its whole whitespace run; otherwise the content is unchanged |
| Classifier.SearchRequestHasKeyword | index.js:103-109 | whenever the lower-cased trimmed content passes the `startsWith("search ")` / `startsWith("ask ")` test, the regular expression matches and leaves a non-empty prompt |
| Classifier.Classify | index.js:47-111 | Ignored iff the author is a bot or the bot is not mentioned; Nudge iff the cleaned content is empty; Reset, Help, Ping, About iff the lower-cased content equals that word; otherwise Converse, with the search flag iff the lower-cased content starts with `search ` or `ask `, the prompt being the content without keyword and whitespace (and non-empty) when the flag is set and the content itself when not |
| Memory.Exchange | index.js:182-187 | after one exchange the history has `min(n + 2, 20)` turns, ends with the new user turn and assistant turn, is preceded by the most recent old turns in their order, and has even length when the old one had |
| Memory.ExchangeKeepsWellFormed | index.js:182-187 | a history of at most 20 turns made of user/assistant pairs stays so after an exchange |
| Memory.FullHistoryDropsOldestPair | index.js:185-187 | on a full history of 20 turns an exchange drops exactly the oldest pair and appends the new one |
| Memory.ExchangeIsTail | index.js:182-187 | the history after an exchange is a tail of the old history with the new pair pushed |
| Memory.ReplayLength | index.js:182-187 | after N exchanges from a history of at most 20 turns the history holds `min(n + 2N, 20)` turns (`min(2N, 20)` from empty) |
| Memory.ReplayKeepsMostRecent | index.js:182-187 | eviction is first-in first-out: after any number of exchanges the history is a tail of the old history followed by every pushed turn |
| Memory.ReplayKeepsWellFormed | index.js:182-187 | histories built by exchanges alone always consist of user/assistant pairs and at most 20 turns |
| Memory.MemoryTable.constructor | index.js:23 | the table starts empty (and valid) |
| Memory.MemoryTable.Load | index.js:26-29 | the table holds exactly the entries read from the saved document |
| Memory.MemoryTable.GetOrCreate | index.js:132-133 | a user without an entry gets an empty history installed; a user with one keeps it; the returned history is the user's entry and no other entry changes |
| Memory.MemoryTable.Reset | index.js:69-71 | the user's entry is removed entirely and every other entry is kept |
| Memory.MemoryTable.AppendExchange | index.js:182-187 | the user's entry becomes the windowed history after the exchange (at most 20 turns), every other entry is kept, and a valid table stays valid |
| Prompt.UserPrompt | index.js:135-147 | without a replied-to message the user turn is the clean prompt; with one it is the `User replied to:` header, the quoted text and the `User says:` header followed by the clean prompt |
| Prompt.BuildContents | index.js:164-168 | the contents are the system turn, then the history in order, then the user turn, so there are two more turns than in the history |
| Reply.Tools | index.js:174 | the tool list is non-empty exactly when the search flag is set, and then holds exactly one Google search entry |
| Reply.ExtractReply | index.js:177-179 | the reply is the backend text when it is present and non-empty and the fixed fallback otherwise, so it is never empty |
| Reply.Truncate | index.js:191 | the message sent is the prefix of the reply of length `min(length, 2000)`, the whole reply when it fits |
| Handler.Respond | index.js:60-191 | nudge, help, ping and about send their fixed reply and leave the table alone; reset sends its reply and removes only that user's entry; a conversation sends the system turn, the user's history (empty if none) and the user turn, with tools iff search, replies with the truncated reply and stores the full reply in that user's window; no backend request except for a conversation |
| Handler.HandleMessage | index.js:45-191 | the message is classified and answered as `Respond` states; ignored messages send nothing and change nothing |

## Left out

- The Discord client, its intents, event wiring, `login`, the ready log, `sendTyping` and `message.reply` (index.js:7-13, 39-42, 51, 205): platform I/O. The replies the handler would send are returned as values.
- Fetching the replied-to message (index.js:138-141): platform I/O. Its text is the `quoted` input, `None` when the message is not a reply.
- The Gemini call (index.js:171-175): an external service. Its answer is the `backendText` input. Only the request (contents and tool list) is kept, not the model name.
- Loading and saving `memory.json` through `JSON.parse` and `JSON.stringify` (index.js:21, 26-37, 71, 189): file I/O and library serialisation. `MemoryTable.Load` receives the already-parsed map.
- The log lines appended to `bot_logs.txt` and the console logs (index.js:110, 122-129, 193-196): file and console output.
- The date localisation and the persona text (index.js:113-120, 149-161): they depend on the locale library or are fixed content. The system prompt is an opaque parameter.
- The `try`/`catch` apology reply (index.js:198-201): exceptions from fetching, the backend or file writes are not modelled. In the source such a failure after line 132 leaves an empty history installed for a new user.
- Interleaving of concurrent handlers on the shared map (lost updates): concurrency.
- Text.LowerChar: folds only the ASCII letters A-Z. The source's `toLowerCase` also folds non-ASCII letters, and can change the length of a string.
- Classifier.Classify: inherits the ASCII-only folding of `LowerChar`. For example, the Kelvin sign lower-cases to `k` in the source's search test but not in the model. The case-insensitive regular expression never matches a non-ASCII character against an ASCII letter, so the keyword strip itself is exact.
- Reply.Truncate: counts characters. The source's `slice` counts UTF-16 code units, so a reply containing characters outside the Basic Multilingual Plane (most emoji) is cut at a different place.
- Memory.MemoryTable.AppendExchange: requires that the user's entry exists, which the handler guarantees at line 132. Pushing onto an array that a concurrent `reset` detached from the map is not modelled.
- Memory.MemoryTable.Load: makes no well-formedness promise, because a saved document may hold histories of any shape. `Valid()` is only preserved (`old(Valid()) ==> Valid()`).
