# Telegram command router: a Dafny model

This project models the message handler of a Telegram bot. The bot trims each
incoming text and lowers a copy of it. It then checks the lowered copy against
a fixed, ordered list of rules. The rules are the exact words `/start`, `hi`,
`hello`, `/help` and `joke`, and the prefixes `search:`, `solve:` and `chat:`,
which must stand at the start of the text. The bot then answers with one or
two messages, or fewer when an outside call raises. A prefix command's payload is cut from the original-case text by
removing exactly the prefix's length and trimming the rest. `search:` and
`chat:` (with a non-empty prompt) first send an acknowledgement and then the
handler's result. The search and joke handlers turn an HTTP status and a
decoded JSON body into one reply.

Files:

- `text.dfy` (module `Text`) holds Python's `str.strip()` and `str.lower()`
  over ASCII. `StripUnique` characterises strip as the only trimmed slice with
  nothing but whitespace around it. The whitespace set is the one Python uses
  below U+0080: space, `\t \n \v \f \r` and U+001C to U+001F.
- `formatting.dfy` (module `Formatting`) holds the reply text of
  `google_search`, `fetch_joke` and the `solve:` branch. It also defines
  decimal rendering of a status code and Python's `str.join`.
- `router.dfy` (module `Router`) holds the `Command` datatype and `Classify`,
  the router's if-chain. Two definitions are related to it:
  - `ClassifyByRules`, the same router read from an ordered rule table
    (first match wins), is proved equal to `Classify` on every text;
  - `Render` gives a message text for each command. It is a right inverse
    of `Classify` on canonical commands, those whose payload is already
    stripped: classifying the rendered text gives the command back. Every
    command `Classify` returns is canonical.
- `dispatch.dfy` (module `Dispatch`) holds the reply list `Replies`, the
  outside calls `Calls` each command makes, and `HandleMessage`. The method
  `HandleMessage` answers step by step on a `Conversation` object that records
  what was sent. Its postcondition ties the recorded replies to
  `Replies(Classify(text), services)`.

The outside services are one parameter, `Services`. It gives:

- the search API's answer (status and items) to a request, or an exception;
- the joke API's answer (status and fields), or an exception;
- the evaluator's outcome for an expression: a printed value, a
  `SympifyError`, or another exception;
- the AI chat handler's reply string for a prompt. That handler catches every
  exception itself.

`google_search` and `fetch_joke` catch nothing, and the `solve:` branch
catches only `SympifyError`, so any other exception from them ends
`handle_message`. A search that raises has sent only `🔍 Searching...`; a
joke, or a solve whose evaluator raises something other than `SympifyError`,
has sent nothing. A search
also raises (a `KeyError`) when a hit of a 200 answer lacks `title`, `snippet`
or `link`.

Two details of the code that are easy to misread:

- A 200 joke lacking `setup` or `punchline` shows the text `None` in that
  line, because `data.get(...)` returns `None` and the f-string prints it.
- The `Unknown` command carries no text; the code never uses it.

## Model

| member | source | states |
|---|---|---|
| `Text.Lower` | bot.py:80 | lowering keeps the length and maps each character by ASCII case folding, so an index into the lowered copy is an index into the original |
| `Text.Strip` | bot.py:78 | the stripped text has no whitespace at either end and is no longer than the input |
| `Text.StripUnique` | bot.py:78 | strip returns the one slice of the text that is trimmed and has only whitespace before and after it |
| `Text.StripIdempotent` | bot.py:96 | stripping an already stripped text changes nothing |
| `Text.StripIgnoresPadding` | bot.py:78 | whitespace added before or after a text does not change its stripped form |
| `Text.StripLowerCommute` | bot.py:78-80 | lowering then stripping equals stripping then lowering |
| `Text.LowerIdempotent` | bot.py:80 | lowering twice is lowering once |
| `Text.LowerAppend` | bot.py:80 | lowering a concatenation lowers each part |
| `Formatting.Decimal` | bot.py:57 | the status is rendered as one or more decimal digits with no leading zero |
| `Formatting.ParseDecimalOfDecimal` | bot.py:57 | the rendered status reads back as the same number |
| `Formatting.JoinAppend` | bot.py:63 | joining one more part appends the separator and that part |
| `Formatting.Join` | bot.py:63 | Python's `sep.join(parts)`: the parts with the separator between each two; `Formatting.JoinAppend` fixes it part by part |
| `Formatting.ResultBlock` | bot.py:62 | one hit as `title`, line break, `snippet`, line break, `link` |
| `Formatting.FormatSearch` | bot.py:56-63 | the search reply from the status and the decoded items; its cases are the four lemmas below |
| `Formatting.SearchErrorReportsStatus` | bot.py:56-57 | any status other than 200 gives `Search error: HTTP ` followed by digits that read back as the status |
| `Formatting.SearchWithoutItems` | bot.py:59-61 | a 200 answer with `items` missing or empty gives `No results found.` |
| `Formatting.SearchSingleResult` | bot.py:62-63 | a single hit gives exactly `title\nsnippet\nlink` |
| `Formatting.SearchResultsInOrder` | bot.py:62-63 | each further hit adds a blank line and its block at the end, so the blocks keep the API's order |
| `Formatting.Show` | bot.py:73 | an f-string's rendering of `data.get(key)`: the value, or `None` when the key is absent |
| `Formatting.FormatJoke` | bot.py:70-73 | the joke reply from the status and the two fields; its cases are the two lemmas below |
| `Formatting.JokeFailedIffBadStatus` | bot.py:70-73 | the fixed failure text comes out if and only if the status is not 200 |
| `Formatting.JokeSplitsBack` | bot.py:72-73 | when the setup is a single line, a 200 joke splits at its first line break back into setup and punchline, with an absent field shown as `None` |
| `Formatting.SolveReply` | bot.py:104-108 | `Result: ` plus the printed value, or the invalid-expression text for a `SympifyError` |
| `Formatting.SolveReplyRoundTrip` | bot.py:104-108 | the solve reply is `Result: ` plus the value or the fixed invalid-expression text, and the evaluator's outcome can be read back from it |
| `Router.FirstMatch` | bot.py:80-116 | the rule table's answer is the index of the first matching rule, and no earlier rule matches |
| `Router.Classify` | bot.py:77-117 | the router as written: strip, lower a copy, test the rules in order, slice the prefix length off the stripped original; its properties are the lemmas below |
| `Router.ClassifyFollowsRules` | bot.py:77-126 | the router's if-chain equals first-match over the ordered rule table of greeting words, `/help`, `search:`, `solve:`, `joke`, `chat:`, else Unknown |
| `Router.PrefixExcludesWords` | bot.py:80-116 | a text that starts with a command prefix is none of the exact words, so an exact rule never shadows a prefix rule |
| `Router.ClassifyIgnoresCase` | bot.py:78-117 | lowering the whole message gives the same command with its payload lowered, so the rule chosen does not depend on letter case; that the payload is cut from the original-case text is `Router.PayloadAfterPrefix` |
| `Router.ClassifyIgnoresPadding` | bot.py:78 | surrounding whitespace does not change the command |
| `Router.PayloadAfterPrefix` | bot.py:95-117 | the payload is the stripped original-case text after exactly 7, 6 or 5 characters, stripped again (never a lowered copy), and the characters cut off spell the prefix in some letter case |
| `Router.PayloadsAreStripped` | bot.py:96-117 | every payload is already stripped |
| `Router.SearchRoundTrip` | bot.py:95-96 | `search:` followed by a stripped query is read as a search for exactly that query |
| `Router.SolveRoundTrip` | bot.py:102-103 | `solve:` followed by a stripped expression is read as exactly that expression |
| `Router.ChatRoundTrip` | bot.py:116-117 | `chat:` followed by a stripped prompt is read as exactly that prompt |
| `Router.ClassifyRender` | bot.py:77-126 | classifying the rendered text of any command with a stripped payload gives the command back |
| `Router.ClassifyRenderClassify` | bot.py:77-126 | rendering what was understood and sending it again is understood the same way |
| `Router.JokeIsExact` | bot.py:111 | `joke please` is Unknown |
| `Router.PrefixIsAnchored` | bot.py:95 | `xsearch:y` is Unknown |
| `Router.GreetingIgnoresCase` | bot.py:80 | `Hello` is a greeting |
| `Router.QueryKeepsCase` | bot.py:95-96 | `Search:  Python ` is a search for `Python` |
| `Router.UpperCasePrefix` | bot.py:95-96 | `SEARCH: x` is a search for `x` |
| `Dispatch.RepliesUseOnlyCalls` | bot.py:95-124 | the replies depend on the services only through the calls listed for the command, so an unlisted handler is never consulted |
| `Dispatch.AtMostOneCall` | bot.py:95-124 | a message makes at most one outside call |
| `Dispatch.GoogleSearch` | bot.py:46-63 | `google_search` returns a reply exactly when the API answers and every hit of a 200 answer has `title`, `snippet` and `link`; otherwise it raises |
| `Dispatch.FetchJoke` | bot.py:66-73 | `fetch_joke`: the formatted joke, or an exception when the request raises |
| `Dispatch.SolveExpression` | bot.py:102-109 | the `solve:` reply, or none when the evaluator raises something other than `SympifyError` |
| `Dispatch.Replies` | bot.py:80-126 | the replies to a classified message in sending order, cut short where an outside call raises |
| `Dispatch.ReplyCount` | bot.py:95-126 | a message gets at most two replies: none exactly when a solve or a joke raises, two exactly for a search that returns and for a chat with a non-empty prompt, and at least one whenever no outside call raises |
| `Dispatch.AcknowledgementFirst` | bot.py:95-124 | `🔍 Searching...` is sent before the search runs, so it is sent even when the search raises; a chat with a prompt gets `🤖 Thinking...` and then the handler's reply |
| `Dispatch.EmptyChatPrompt` | bot.py:116-120 | an empty `chat:` prompt gets only `Please enter a message after 'chat:'.` and makes no outside call |
| `Dispatch.SearchMessageReplies` | bot.py:95-99 | the message `Search:  Python ` is answered with `🔍 Searching...` and then, unless it raises, the search for `Python` |
| `Dispatch.UnknownMessageReplies` | bot.py:111-126 | the message `joke please` is answered with the fixed unknown-command text |
| `Dispatch.Conversation.Answer` | bot.py:97 | answering appends exactly one message to what the chat has been sent |
| `Dispatch.HandleMessage` | bot.py:77-126 | handling a message appends to the chat exactly the replies for its classified command, in order |

## Left out

- The Telegram transport is not modelled: the bot, the dispatcher, polling and
  the delivery of `message.answer` (bot.py:20-21, 76, 129-134). A reply is
  modelled as one entry appended to a `Conversation`. Send failures are not
  modelled.
- Messages without text are not modelled. For those `message.text` is `None`,
  and the handler raises on `.strip()`.
- HTTP sessions and JSON decoding are not modelled (bot.py:47-55, 58, 67-69).
  The status and the decoded body are inputs, or the call raises. A non-list
  `items` and field values that are not strings are not modelled.
- The Vertex AI client, the request it builds and the worker thread it runs on
  are foreign code (bot.py:24-43). The AI handler is an opaque function from
  prompt to reply string. Its fallback texts at bot.py:41-43 are not modelled.
- `sympify(...).evalf()` is foreign code with floating-point output
  (bot.py:105). It is an oracle that gives a printed value, rejects the input
  with `SympifyError`, or raises something else.
- Environment loading is configuration only (bot.py:11-17, 49-50). The API
  key and engine id are not part of the search request model.
- Python's full Unicode `lower()` and `strip()` are not modelled. Case folding
  is ASCII only and whitespace is Python's set below U+0080. Outside ASCII,
  lowering can change a string's length, which would move the fixed-length
  slices off the prefix.
- `Formatting.FormatSearch` requires every hit of a 200 answer to have
  `title`, `snippet` and `link`, as the code needs. The `KeyError` raised
  otherwise is modelled one level up, in `Dispatch.GoogleSearch`.
- What the bot does with an exception that leaves `handle_message` (logging
  it in the dispatcher) is not modelled. The model only records which replies
  were sent before it.
- Concurrency between chats is not modelled. Each message is handled on its
  own, and nothing is shared between messages.
