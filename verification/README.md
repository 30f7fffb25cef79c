# GaiaNet chat bot: retry loop, turn generation and word lists

`gaia_bot.py` is a small asyncio bot. Over and over, it sends a short two-message
conversation to the chat-completions endpoint of a GaiaNet node and logs the reply.
This project models its three pieces of sequential logic as pure Dafny functions
and proves properties of them:

- **`send_request` with `log_success`** (module `Retry`, with the reply lookup in
  module `Json`). The network is replaced by one abstract `Outcome` per attempt:
  - a response with a status and a decoded body, or a body that failed to decode;
  - a timeout;
  - any other transport exception.

  The loop yields a `Report`, which holds a trace of `Event`s and a terminal result:
  - events: `Attempt`, `Warning`, `Error`, `Answer`, `Sleep`;
  - result: `Succeeded(question, answer)` or `Exhausted`.

  Python's subscript rules on the decoded JSON are modelled exactly, since any
  `KeyError`, `IndexError` or `TypeError` there ends up in the catch-all handler:
  - `dict[key]` works only on objects;
  - `[0]` works on arrays and on strings, where it gives a one-character string.
- **`generate_message`** (module `Messages`). Each of the three `random.choice`
  calls becomes an explicit pick index. A `random.choice` on an empty list
  becomes an error result.
- **The pure part of `load_from_file`** (module `WordList`). This covers
  `str.strip()` with Python's whitespace set, the removal of blank lines with order
  kept, and the error when nothing is left.
- **One cycle of `run`** (module `Bot`): generate, send, pause for one second.

`Wrappers` holds the `Option` and `Result` types.

## Behaviour worth noting

- **Role exclusion.** The role "user" is excluded by an exact, case-sensitive
  comparison (line 78), so "User" may answer. There is no fallback role: if
  every role is "user", `random.choice` raises. See
  `Messages.CapitalisedUserMayReply` and `Messages.OnlyUserRoleFails`.
- **Replies without content.** When a 200 reply lacks
  `choices[0].message.content`, `log_success` raises (line 110). The catch-all
  `except Exception` then logs an error and, unless it was the last attempt,
  the request is retried (lines 102-106). See `Retry.MalformedReplyIsRetried`.
- **Exceptions from `generate_message`.** `run` catches only
  `KeyboardInterrupt`, so an exception raised by `generate_message` escapes the
  loop (lines 120-126). `Bot.Cycle` returns it as an error.

## Model

| member | source | states |
|---|---|---|
| `Json.Content` | gaia_bot.py:110 | The lookup `result["choices"][0]["message"]["content"]` gives a value exactly when the body is an object whose "choices" is a non-empty array whose first element is an object whose "message" is an object holding "content". The value it gives is that content. |
| `Json.WellFormedReplyYieldsContent` | gaia_bot.py:110 | The documented reply shape with content "hi" yields "hi". |
| `Json.MissingChoicesYieldsNothing` | gaia_bot.py:110 | A reply without "choices" yields no content, so there is no placeholder answer. |
| `Json.StringChoicesYieldNothing` | gaia_bot.py:110 | A string in place of the "choices" array yields no content. |
| `Messages.OtherRoles` | gaia_bot.py:78 | The candidate roles for the second message are exactly the roles not equal to "user", and there are no more of them than roles. |
| `Messages.GenerateMessage` | gaia_bot.py:71-81 | Generation fails exactly when there are no phrases or every role is "user", and the error names which of the two happened. Otherwise it returns two messages: the first is a "user" message with the picked phrase; the second has a role from `roles` other than "user", and the second picked phrase. |
| `Messages.EveryOtherRoleCanReply` | gaia_bot.py:77-80 | Every role other than "user" in the list is drawn by some pick. |
| `Messages.CapitalisedUserMayReply` | gaia_bot.py:78 | "User" is not excluded, because the comparison is case-sensitive. |
| `Messages.OnlyUserRoleFails` | gaia_bot.py:78 | A role list holding only "user" makes generation fail, because there is no fallback role. |
| `Retry.TryOnce` | gaia_bot.py:86-103 | An attempt yields an answer exactly when the response is a 200 with a reply of the documented shape and there is a first message. The question is then the first message's content and the answer is the reply's content. Otherwise the attempt logs a warning or an error carrying the attempt number and the total. A timeout gives a `Timeout` warning and a non-200 status a `BadStatus` warning with that status. A transport exception gives a `Transport` error. A 200 gives an error naming the first step that raised: decoding the body, taking `messages[0]`, or looking up the content. |
| `Retry.SendRequest` | gaia_bot.py:83-106 | With `retry_count <= 0` there are no events and the result is `Exhausted`. The loop succeeds exactly when some outcome within the budget is usable, and the question is the first message's content. Every sleep sits between an attempt and the next attempt, and no sleep ends the trace. Every warning or error directly follows its attempt and carries the total. Attempt numbers run 1, 2, 3, … in order. Every sleep lasts `retry_delay` seconds. |
| `Retry.ExhaustsAfterEveryFailure` | gaia_bot.py:85-106 | With N >= 1 attempts and no usable outcome, there are exactly N attempts, N warnings or errors, N-1 sleeps and no answer, and the result is `Exhausted`. |
| `Retry.StopsAtFirstAnswer` | gaia_bot.py:93-106 | If the first usable outcome is at 0-based position k within the budget, there are exactly k+1 attempts, k sleeps, k warnings or errors and one answer. The answer is the last event, and the result is that answer. |
| `Retry.FailedAttemptIsLoggedThenRetried` | gaia_bot.py:85-106 | If the attempt at 0-based position k and every attempt before it failed, the trace holds attempt k+1 at position 3k. The log `TryOnce` gives for outcome k follows it. Unless it was the last attempt, a sleep of `retry_delay` and attempt k+2 come next. |
| `Retry.MalformedReplyIsRetried` | gaia_bot.py:93-110 | A 200 reply without `choices[0].message.content` at position k is logged as error number k+1 of N, right after attempt k+1. Unless it was the last attempt, a sleep of `retry_delay` and attempt k+2 follow. |
| `WordList.Strip` | gaia_bot.py:63 | The stripped line is no longer than the line, and it is empty or neither starts nor ends with whitespace. |
| `WordList.StripIsSlice` | gaia_bot.py:63 | Stripping cuts only whitespace: the result is a slice of the line between an all-whitespace prefix and an all-whitespace suffix. |
| `WordList.BlankIffAllSpace` | gaia_bot.py:63 | A line strips to nothing exactly when it holds only whitespace. |
| `WordList.StripFixesTrimmed` | gaia_bot.py:63 | A word with no whitespace at either end is unchanged by stripping, and stripping twice is stripping once. |
| `WordList.StripAll` | gaia_bot.py:63 | Position i of the result is `lines[i].strip()`. |
| `WordList.DropEmpty` | gaia_bot.py:63 | Keeping only the non-empty words gives no more words than the input and no empty word. It gives nothing exactly when every word is empty. |
| `WordList.NormaliseKeepsOrder` | gaia_bot.py:63 | Each output word has a source line position. These positions are valid and strictly increasing, so the input order is kept. |
| `WordList.NormaliseTakesStrippedLine` | gaia_bot.py:63 | Output word t is the stripped line at its source position, and that line is not blank. |
| `WordList.NormaliseKeepsEveryWord` | gaia_bot.py:63 | Every non-blank line is a source position of some output word. |
| `WordList.Normalise` | gaia_bot.py:63 | The list comprehension keeps at most one word per line. It is empty exactly when every line is blank, and every word in it is non-empty with no whitespace at either end. |
| `WordList.LoadFromLines` | gaia_bot.py:61-66 | Loading fails exactly when every line is whitespace only, with the error naming the file. Otherwise the result is the non-empty list of stripped non-blank lines. |
| `WordList.NormalisedWordComesFromLine` | gaia_bot.py:63 | Every word in the list is the stripped form of some line that is not whitespace only. |
| `WordList.NonBlankLineIsNormalised` | gaia_bot.py:63 | The stripped form of every line that is not whitespace only is in the list. |
| `Bot.Cycle` | gaia_bot.py:120-126 | A cycle fails exactly when generation fails. Otherwise its trace ends with the one-second pause, and it is answered exactly when some outcome within the budget answers. The question is then the phrase drawn for the user message. |
| `Bot.CycleLogsFirstAnswerOrEveryAttempt` | gaia_bot.py:121-124 | An answered cycle made k+1 attempts and logged one answer, where k is the position of the first answering reply within the budget, and it carries that reply's content. With a positive retry count, an unanswered cycle holds exactly `retry_count` attempts, as many warnings or errors and as many sleeps (the last being the cycle pause), and no answer. |
| `Bot.DefaultsMakeThreeAttempts` | gaia_bot.py:38-40 | With the default settings and only failing outcomes, there are three attempts and two sleeps, each of 5 seconds, and the result is `Exhausted`. |
| `Bot.AlwaysTimingOutKeepsCycling` | gaia_bot.py:121-124 | For roles "user" and "assistant", phrase "ping" and three timeouts, the cycle's full trace is three numbered timeout warnings with sleeps between them, then the cycle pause. |
| `Bot.WellFormedReplyIsLogged` | gaia_bot.py:93-112 | A first reply whose content is "hi" is logged as the answer after one attempt, with the first message as the question. |

## Left out

- **aiohttp.** The session, the POST (URL, headers, `timeout`) and `response.json()` are a foreign network library. Each attempt's effect is an abstract `Outcome`.
- **JSON numbers.** Numbers are integers only. Floats do not affect the lookup of line 110.
- **`asyncio.sleep`.** Sleeps are `Sleep` events carrying their length in seconds; no time passes.
- **Logging.** The logging configuration, the log sink and the formatted texts (lines 11-19, 98-113) are left out. Only the events and their fields are kept, and the `"=" * 50` separator is dropped.
- **Settings.** Reading `NODE_ID`, `RETRY_COUNT`, `RETRY_DELAY` and `TIMEOUT` and their `int()` parsing (lines 25-40) are configuration plumbing. The values are parameters, and the defaults are the constant `Bot.Defaults`.
- **File and process handling.** Opening files, `readlines`, `FileNotFoundError` and `sys.exit` (lines 26-28, 54-56, 62, 67-69) are I/O and process termination. `LoadFromLines` takes the lines as read.
- **`initialize`.** Its calls to `load_from_file` for roles.txt and phrases.txt, and the session creation, are I/O. The word lists are parameters of `Bot.Cycle`.
- **The `run` driver.** The endless `while True` loop, `KeyboardInterrupt` handling and closing the session (lines 115-129) are a non-terminating driver and cleanup. One cycle is modelled by `Bot.Cycle`.
- **Randomness.** `random.choice` is replaced by pick indices that must be in range whenever the list is non-empty.
- **`retry_count` versus outcomes.** `Retry.SendRequest` requires one outcome per attempt in the budget (`retryCount <= |outcomes|`). This is how the network is abstracted; the Python code has no such limit.
- **Asyncio cancellation.** `CancelledError` and other `BaseException`s that bypass `except Exception` are not modelled.
