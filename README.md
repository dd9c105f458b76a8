# Recipe bot: verified model of the outbound-text path

The repository is a Telegram bot that sends a user's ingredient list to a
chat-completion API and replies with the generated recipe. It has two entry
points with the same reply logic: a long-running polling process (`index.js`)
and a serverless webhook handler (`api/bot.js`). This project models, in Dafny,
the logic the two share and the webhook's dispatch:

- `escapeMarkdownV2` (module `MarkdownV2`, `markdown.dfy`): a global regular-expression
  replacement that puts a backslash in front of each of 18 reserved characters
  (`_ * [ ] ( ) ~ `` ` `` > # + = | { } . ! -`), the characters that must be escaped in the
  MarkdownV2 formatting mode of the Telegram Bot API. The two files spell the character
  class differently. One function, `ClassEscape`, models the replacement for a given class.
  `Escape` and `EscapeIndexJs` are its two instances.
- The prompt (module `Prompt`, `prompt.dfy`): `"Receta con "` followed by the message
  text after `String.prototype.trim`. Trim is modelled over ECMAScript's WhiteSpace and
  LineTerminator characters.
- Reply selection (module `TextHandler`, `reply.dfy`): the parsed response body is a
  JavaScript value (`Js`). `data.choices?.[0]?.message?.content` is evaluated with the
  language's optional-chaining and truthiness rules. A non-empty string is escaped and sent
  with `parse_mode: "MarkdownV2"`. Every other outcome sends the fixed fallback text
  without a parse mode: a failed fetch, a body that is not JSON, a `null` body, missing or
  falsy content, non-string content (where `.replace` throws), or a refused first reply.
  If the fallback reply is refused too, the handler's promise rejects.
- Webhook dispatch (module `Webhook`, `webhook.dfy`): `handler(req, res)` as a method
  that updates a `ServerResponse` object through `SetHeader`, `Status` and `Send`.

Inputs that come from I/O are parameters:
- `Fetched`: what `fetch` and `resp.json()` produced.
- `Delivery`: whether a `ctx.reply` was accepted.
- `updateThrows`: whether `bot.handleUpdate` threw.

Three points of the code that the model keeps as written:
- The prompt prefix is the Spanish `"Receta con "`.
- Truthy content that is not a string fails through a TypeError in the sanitizer. It is
  not reported as empty content.
- A refused answer reply is caught and followed by the fallback reply, because both
  happen inside the `try`. Only a refused fallback escapes the handler.

## Model

| member | source | states |
|---|---|---|
| MarkdownV2.ClassEscape | api/bot.js:13-15 | the output is as long as the input plus one per class member in it |
| MarkdownV2.Escape | api/bot.js:13-15 | one backslash is inserted per reserved character; `PositionOfEach` states the output position by position |
| MarkdownV2.EscapeIndexJs | index.js:12-14 | the index.js sanitizer returns what the api/bot.js one returns, on every input |
| MarkdownV2.ClassesDenoteSameSet | index.js:13 | the class in index.js holds exactly the characters of the class in api/bot.js; there are 18, pairwise distinct, and the backslash is not one of them |
| MarkdownV2.ClassEscapeSameMembers | index.js:12-14 | two classes with the same members escape every string alike |
| MarkdownV2.CountZeroIff | api/bot.js:14 | no reserved character is counted iff none occurs |
| MarkdownV2.EscapeIdentityIff | api/bot.js:13-15 | a string is returned unchanged iff it holds no reserved character; the empty string maps to itself |
| MarkdownV2.NoReservedUnchanged | api/bot.js:13-15 | a string without reserved characters is returned unchanged |
| MarkdownV2.EscapeAppend | api/bot.js:14 | escaping distributes over concatenation |
| MarkdownV2.CountAppend | api/bot.js:14 | the reserved count of a concatenation is the sum of the counts |
| MarkdownV2.PositionOfEach | api/bot.js:14 | the output for each input character starts at its offset; a reserved character is preceded by exactly one inserted backslash, any other character (the backslash included) is copied, and the pieces follow in input order |
| MarkdownV2.OffsetBounds | api/bot.js:14 | the first piece starts at 0 and the last ends at the end of the output |
| MarkdownV2.CountOne | api/bot.js:14 | a single character is counted once iff reserved and escaped to its own unit |
| MarkdownV2.CountEscaped | api/bot.js:14 | the escaped text holds as many reserved characters as the input |
| MarkdownV2.EscapeTwiceIff | api/bot.js:14 | escaping twice equals escaping once iff the input holds no reserved character |
| MarkdownV2.EscapeNotIdempotent | api/bot.js:14 | `!` escapes to `\!` and then to `\\!`, so escaping is not idempotent |
| MarkdownV2.EscapeExample | api/bot.js:14 | `lentejas_y_calabaza!` escapes to `lentejas\_y\_calabaza\!` |
| MarkdownV2.ReadBackShrinks | api/bot.js:14 | the text Telegram reads back from escaped output is never longer than the input, and is shorter when the input holds a backslash |
| MarkdownV2.EscapeReadsBackIff | api/bot.js:14 | Telegram reads the escaped text back as the input iff the input holds no backslash |
| MarkdownV2.NoBackslashReadsBack | api/bot.js:14 | input without backslashes reads back unchanged |
| MarkdownV2.BackslashBreaksReadBack | api/bot.js:14 | `\!` is sent as `\\!`, which does not read back as literal text |
| MarkdownV2.StrictEscapeReadsBack | api/bot.js:14 | with the backslash added to the class, every input reads back unchanged |
| Prompt.TrimStart | index.js:23 | trimming the start never lengthens the text; its full contract is `TrimStartSpec` |
| Prompt.TrimEnd | index.js:23 | trimming the end never lengthens the text; its full contract is `TrimEndSpec` |
| Prompt.TrimStartSpec | index.js:23 | trimming the start leaves a suffix of the input; everything cut off is whitespace, and the suffix does not start with whitespace |
| Prompt.TrimEndSpec | index.js:23 | trimming the end leaves a prefix of the input; everything cut off is whitespace, and the prefix does not end with whitespace |
| Prompt.Trim | api/bot.js:26 | the trimmed text is never longer and neither starts nor ends with whitespace; `TrimIsInnerSlice` places it in the input |
| Prompt.TrimIsInnerSlice | index.js:23 | the trimmed text is the slice of the input between two all-whitespace margins and neither starts nor ends with whitespace |
| Prompt.TrimStartSkipsMargin | index.js:23 | leading whitespace does not change the result of trimming the start |
| Prompt.TrimEndSkipsMargin | index.js:23 | trailing whitespace does not change the result of trimming the end |
| Prompt.TrimStartKeepsTail | index.js:23 | with trailing whitespace `b`, trimming `t + b` equals trimming the start of `t`, appending `b` and trimming the end |
| Prompt.TrimIdempotent | index.js:23 | trimming twice equals trimming once |
| Prompt.BuildPrompt | api/bot.js:26-27 | the prompt starts with `Receta con `; the rest is the slice of the message text between an all-whitespace leading and trailing margin, and neither starts nor ends with whitespace |
| Prompt.PromptIgnoresMargins | index.js:23-24 | whitespace around the message text does not change the prompt |
| TextHandler.Truthy | api/bot.js:62 | the falsy values are exactly `undefined`, `null`, `false`, `0` and the empty string |
| TextHandler.FirstContent | api/bot.js:61 | reading `data.choices` fails (with a TypeError) iff `data` is nullish; a string `c` is found iff the body's `choices` holds first a choice whose `message.content` is `c` |
| TextHandler.Completion | api/bot.js:60-62 | only a non-empty string found at the first choice's content of a parsed body gets through |
| TextHandler.HandleText | api/bot.js:25-70 | one or two replies are attempted; each is the fallback or the escaped content in MarkdownV2; nothing is logged iff content was found and the answer was delivered; the handler rejects iff something was logged and the fallback was refused |
| TextHandler.CompletionOkIff | api/bot.js:61-62 | content `c` gets through iff `c` is non-empty and the body's `choices` holds first a choice whose `message.content` is `c` |
| TextHandler.AnswerSent | api/bot.js:60-65 | a body of that shape, delivered, yields exactly one reply: the escaped content in MarkdownV2, with nothing logged |
| TextHandler.FallbackOnFailure | api/bot.js:66-68 | any failure before the answer yields exactly the fallback text without a parse mode, with the failure logged |
| TextHandler.FallbackAfterRefusedAnswer | api/bot.js:65-68 | a refused answer is sent as the escaped content and then followed by the fallback text; the refusal is logged, and the handler rejects iff the fallback is refused too |
| TextHandler.FailureSources | api/bot.js:30-62 | a failed fetch, a non-JSON body, a null body, missing or empty `choices` and a missing `message` each lead to their failure |
| TextHandler.BadContent | api/bot.js:61-64 | empty-string content is a missing answer; truthy non-string content fails in the escape |
| TextHandler.EntryPointsAgree | index.js:22-67 | given the same completion outcome, the polling handler behaves exactly like the webhook one |
| TextHandler.ExampleAnswer | index.js:55-61 | `{"choices":[{"message":{"content":"Hola!"}}]}` is answered with `Hola\!` in MarkdownV2 |
| TextHandler.ExampleNoChoice | index.js:55-66 | `{"choices":[]}` is answered with the fallback text |
| Webhook.ServerResponse.constructor | api/bot.js:73 | a fresh response has status 200, no headers and no body |
| Webhook.ServerResponse.SetHeader | api/bot.js:84 | sets one header and changes nothing else |
| Webhook.ServerResponse.Status | api/bot.js:77 | sets the status and changes nothing else |
| Webhook.ServerResponse.Send | api/bot.js:85 | sets the body and changes nothing else |
| Webhook.Handler | api/bot.js:73-86 | POST with a successful hand-off gives 200 "OK"; POST whose hand-off throws gives 500 "Error handling update"; any other method gives 405 "Method Not Allowed" with `Allow: POST`; only that path calls `setHeader` |

## Findings

| source | as written | input that shows it | evidently intended | confidence | as-written member | corrected member |
|---|---|---|---|---|---|---|
| api/bot.js:14 (and index.js:13) | the backslash is not in the escaped class, so a backslash in the model's output is sent as it is | content `\!` is sent as `\\!`; MarkdownV2 reads `\\` as a literal backslash and the `!` that follows as bare markup | MarkdownV2 lets a backslash escape any character, so the backslash itself must be escaped for the text to show as written | medium, not executed | MarkdownV2.BackslashBreaksReadBack | MarkdownV2.StrictEscapeReadsBack |

`EscapeReadsBackIff` states the exact extent of the gap: escaped output reads back as the
input iff the input holds no backslash. `StrictEscape` is the sanitizer with `\` added to the
class, and it reads back every input. The reply members (`HandleText` and the lemmas about it)
keep the as-written sanitizer, since they model what the bot sends.

## Left out

- Telegraf bot construction, `bot.start`, `bot.on`, `bot.handleUpdate`, `launch` and `stop`: framework plumbing in a library that is not part of this model. Whether `handleUpdate` threw is an input of `Webhook.Handler`. The model does not connect it to a run of the text handler.
- The `fetch` call, its headers, the request body (model name, `temperature: 0.8`, the system instruction) and `JSON.stringify`: network I/O. Only the outcome is modelled, as `Fetched`.
- `resp.json()` parsing: its result is any `Js` value, or `JsonFailed`.
- Environment variables, `dotenv`, `console.error` output and the SIGINT/SIGTERM shutdown: configuration and process I/O. Which failure would be logged is recorded in `Run.logged`; the log line itself is not modelled.
- `res.status` and `res.send` are modelled as plain field updates. The headers the runtime adds itself (`Content-Type`, `Content-Length`) and the ending of the response are not modelled.
- Only settled outcomes of `fetch`, `resp.json()` and `ctx.reply` are modelled. There is no timeout in the code, so a call that never settles leaves the user with no reply at all. `HandleText`'s `1 <= |r.sent|` and the fallback on every failure hold for settled outcomes only.
- TextHandler.EntryPointsAgree: the two files send different requests. api/bot.js:39 asks for the model `llama3-70b-8192` and index.js:35 for `llama3-8b-8192`, and the system instruction is worded differently (index.js:43 has "paa completar" where api/bot.js:47 has "para completar"). The request is not modelled, so the model does not tell the two apart; the lemma holds for the same completion outcome only.
- Interleaving of concurrent messages: the handlers share no state.
- `ReadBack` models only whether a MarkdownV2 message reads as literal text. A bare reserved character counts as markup, and formatting entities are not parsed. A backslash is taken to escape any character that follows; Telegram documents this only for character codes 1 to 126.
- JavaScript strings are UTF-16; the model's strings are sequences of Unicode scalar values, so `"abc"[0]` on a non-BMP character differs there.
- Prototype properties and getters of JavaScript objects are not modelled. No property name read here (`choices`, `0`, `message`, `content`) is defined by a prototype of a JSON value.
- The `/start` greeting: a constant reply through the framework.
