# PowerX customer-service bot: the session state machine

This project models the message handler of the PowerX customer-service bot, a
Telegram bot that answers customers through a language model. The bot keeps two
process-wide maps: `user_message_count` (messages counted per user) and
`user_conversations` (the transcript lines of each user). Each inbound text
message is handled against these maps, in this order:

1. A blank text (empty, or only whitespace) gets a request to write clearly.
2. A text over 500 code points gets a "too long" reply.
3. Otherwise the user's count goes up by one.
4. If the count is now above 25, the message gets the quota reply.
5. If the text contains one of the two Arabic location words, the message gets
   the location reply.
6. Otherwise the user line `👤 text` is appended and the language model is asked:
   - If the call fails, the message gets an error notice with the exception text.
   - If it answers, the stripped answer is used; an empty answer becomes the
     fixed fallback text. The bot line `🤖 answer` is appended and the answer
     is sent.
   - If the count is exactly 25, the closing message is sent as well. The
     transcript is then emailed, its lines separated by blank lines, and both
     entries of the user are deleted.

The model has three modules:

- `Text` (`text.dfy`) models the Python string built-ins the handler uses:
  `str.strip` (which removes the code points Python's `str.isspace` accepts,
  modelled as that exact set), the substring test `k in s` and
  `sep.join(parts)`.
- `Bot` (`bot.dfy`) holds the constants, the reply texts and the pure
  specification `Step` of one call of the handler.
  - The model-consulting tail of `Step` is the separate function `ModelTurn`.
  - The class `Sessions` holds the two maps as `map` fields. Its method
    `HandleMessage` mutates them step by step, as the handler does, and is
    proved equal to `Step`.
  - The lemmas cover each path of the handler, the invariant of the maps and
    the fact that the count is not the number of user lines.
- `Runs` (`runs.dfy`) handles sequences of messages in order (`Run`). It proves
  the rules that span several messages:
  - the lock-out after the limit;
  - the lock-out caused by a 25th message that is a location question or a
    failed model call;
  - the export that ends a full session and empties the maps;
  - the independence of users.

Both outside calls are explicit values:

- The language-model call is represented by its result, a `Completion`: either
  `Answer(content)` or `Failure(detail)`. `HandleMessage` and `Step` take it
  as an input.
- The email is an output, `Email(user, body)`.

An absent map key means a count of 0 and an empty transcript, as `defaultdict`
gives.

Two consequences of the code are easy to miss:

- A user's count is not the number of user lines in the transcript. Quota and
  location messages are counted without adding a line. `Bot.Invariant` states
  the inequality that does hold, and `Bot.CountIsNotUserTurns` gives a message
  that breaks the equality.
- The message after the 25th is not always rejected. When the 25th message is
  answered, both entries are deleted, so the next accepted message starts again
  at count 1 (`Bot.RestartAfterExport`). Only a 25th message that is not
  answered (a location question or a failed call) leaves the user locked out
  (`Runs.LimitWithoutAnswerLocksOut`).

## Model

| member | source | states |
|---|---|---|
| Text.IsSpace | main.py:125 | the whitespace that `strip()` removes: the code points Python's `str.isspace` accepts (ASCII whitespace, the separators U+001C to U+001F, U+0085, U+00A0 and the Unicode space and line separators); what `strip()` does with it is stated by `Text.StripTrims` |
| Text.StripStart | main.py:125 | the start index of `strip()` lies between the search start and the end of the text |
| Text.StripEnd | main.py:125 | the end index of `strip()` lies between its start index and the end of the text |
| Text.Strip | main.py:157 | `strip()` never makes a text longer |
| Text.StripStartSkipsSpace | main.py:125 | `strip()` starts after exactly the leading run of whitespace |
| Text.StripEndDropsSpace | main.py:125 | `strip()` ends before exactly the trailing run of whitespace |
| Text.StripTrims | main.py:125 | `strip()` is empty exactly when the text is all whitespace; otherwise it neither starts nor ends with whitespace and is the middle of the text between a leading and a trailing whitespace run |
| Text.IsPrefixIff | main.py:139 | the code-point-wise prefix test is the prefix relation |
| Text.Contains | main.py:139 | the empty string is in every text, and a string longer than the text is never in it |
| Text.ContainsIff | main.py:139 | the substring test `k in s` holds exactly when `k` occurs at some position of `s` |
| Text.JoinAppend | main.py:105 | joining one more line adds the separator and the line at the end |
| Text.Join | main.py:105 | the length of the joined string is the total length of the parts plus one separator between each two; its content is given by `Text.JoinAppend` |
| Bot.ReplyText | main.py:35-172 | an answer is sent exactly as computed; an error notice ends with the exception text, and a location reply with the configured location |
| Bot.IsBlank | main.py:125-127 | a text is blank exactly when every code point of it is whitespace, which includes the empty text |
| Bot.Accepted | main.py:125-133 | a text that passes both checks and is counted is never empty and has at most 500 code points |
| Bot.AsksLocation | main.py:139 | the location reply is chosen exactly when one of the two trigger words occurs somewhere in the text |
| Bot.UserLine | main.py:148 | the user line is the user mark followed by the text; its shape is stated by `Bot.LinesAreMarked` |
| Bot.BotLine | main.py:161 | the bot line is the bot mark followed by the answer; its shape is stated by `Bot.LinesAreMarked` |
| Bot.LinesAreMarked | main.py:148-161 | a user line counts as a user line and holds the text after the mark; a bot line never counts as a user line and holds the answer after its mark |
| Bot.EmailBody | main.py:105 | the length of the email body is the total length of the transcript lines plus one blank-line separator between each two; its content is given by `Bot.EmailBodyOfExchange` |
| Bot.BotReply | main.py:157-159 | the reply sent for a model answer is never empty |
| Bot.BotReplyIsTrimmed | main.py:157-159 | the reply has no surrounding whitespace; it is the fallback text when the answer is blank, and the stripped answer otherwise; it is the fallback text exactly when the answer is blank or strips to the fallback text itself |
| Bot.EmailBodyOfExchange | main.py:105 | the body of a transcript with one more exchange is the old body, then the user line and the bot line, each after a blank line |
| Bot.Step | main.py:120-172 | the two text checks come first, in that order, and change nothing; only the sender's entries change; an accepted message not exported raises the count by exactly one; an email is sent exactly when the 25th message reaches the model and is answered, and it then deletes both entries of the sender |
| Bot.ModelTurn | main.py:143-172 | the model turn changes only the sender's entries and exports exactly when the call answers a message whose count is 25 |
| Bot.QuotaPath | main.py:135-137 | above the limit: the quota reply, the count raised, the transcript unchanged, no export |
| Bot.LocationPath | main.py:139-141 | a location question within the limit gets the location reply, and the count is raised; the transcript is unchanged and nothing is exported, even for the 25th message |
| Bot.FailurePath | main.py:148-172 | a failed model call gets an error notice with the exception text; the count stays raised, the user line is appended without a bot line, and nothing is exported |
| Bot.AnsweredPath | main.py:148-162 | below the limit the answer is sent, the user line and then the bot line are appended, and nothing is exported |
| Bot.ExportPath | main.py:162-168 | for the 25th answered message the answer is sent, then the closing message; the email holds the whole transcript including the two new lines, and both entries are deleted |
| Bot.LengthLimitIsInclusive | main.py:129-131 | a non-blank text of exactly 500 code points is not rejected as too long and is counted |
| Bot.RestartAfterExport | main.py:164-168 | after the export, the user's next accepted message is counted as the first of a new session |
| Bot.UserTurnsAppend | main.py:148 | the user lines of two concatenated transcripts add up |
| Bot.ExchangeKeepsBounds | main.py:148-161 | one user line plus at most one bot line keeps the user lines within the raised count and the limit |
| Bot.RaiseKeepsInvariant | main.py:133 | raising a count keeps the invariant of the maps |
| Bot.RecordKeepsInvariant | main.py:133-161 | raising a count and recording a transcript within the bounds keeps the invariant |
| Bot.ClearKeepsInvariant | main.py:167-168 | deleting both entries of a user keeps the invariant |
| Bot.StepKeepsInvariant | main.py:120-172 | every call keeps the invariant: transcripts only beside counts, counts at least 1, user lines at most the count and at most 25 |
| Bot.ModelTurnKeepsInvariant | main.py:143-172 | a message that reaches the model keeps the invariant |
| Bot.FailureKeepsInvariant | main.py:148-172 | a failed model call keeps the invariant |
| Bot.AnswerKeepsInvariant | main.py:148-162 | an answer below the limit keeps the invariant |
| Bot.CountIsNotUserTurns | main.py:139-141 | a location question from a new user gives count 1 and no user line, so the count is not the number of user lines |
| Bot.Sessions.constructor | main.py:31-33 | a fresh process starts with both maps empty |
| Bot.Sessions.HandleMessage | main.py:120-172 | the replies, the email and the new maps are exactly those of `Step` on the old maps |
| Bot.Sessions.HandleModelTurn | main.py:143-172 | the replies, the email and the new maps are exactly those of `ModelTurn` on the maps after the increment |
| Runs.Run | main.py:120-121 | a run gives one reply list per message and at most one email per message |
| Runs.RunKeepsInvariant | main.py:31-33 | every run keeps the invariant of the maps |
| Runs.ReachableKeepsInvariant | main.py:31-33 | every pair of maps a fresh process reaches satisfies the invariant |
| Runs.OtherUsersUnchanged | main.py:123-168 | handling a message leaves every other user's count and transcript unchanged |
| Runs.LockedOutStep | main.py:133-137 | with the count at or above the limit, one message keeps it there and leaves the transcript unchanged; it sends no email about the user, and an accepted message from the user gets the quota reply |
| Runs.LockedOut | main.py:133-137 | once a count has reached the limit it stays there for the rest of the run; the transcript never changes again and no email about the user is sent |
| Runs.LockedOutReplies | main.py:133-137 | every accepted message from a locked-out user gets the quota reply |
| Runs.LimitWithoutAnswerLocksOut | main.py:133-172 | a 25th message that is a location question or a failed model call never ends the session; later accepted messages from that user all get the quota reply, and no email about the user is ever sent |
| Runs.ExchangesLength | main.py:148-161 | each answered message adds two transcript lines |
| Runs.ExchangesTurns | main.py:148-161 | each message that reaches the model adds exactly one user line |
| Runs.SessionStep | main.py:148-162 | an answered message below the limit raises the count by one and appends its exchange; it sends the answer, exports nothing and leaves other users unchanged |
| Runs.EndsSessionTail | main.py:133-162 | what follows the first message of a session-ending sequence still ends the session |
| Runs.SessionClears | main.py:164-168 | the messages that bring a count to 25 by answers delete both entries of the user and nothing else |
| Runs.SessionSendsTranscript | main.py:105-166 | those messages send exactly one email, holding the earlier transcript followed by every exchange |
| Runs.SessionReplyList | main.py:162-165 | the expected replies of a session have one entry per message |
| Runs.SessionReplies | main.py:162-165 | within a session each message gets the model's answer; the last one also gets the closing message |
| Runs.FullSessionExports | main.py:143-168 | 25 answered messages from a fresh process send one email with the 50 transcript lines (25 of them user lines) and leave both maps empty again |
| Runs.ForUser | main.py:123 | selecting one user's messages never adds messages |
| Runs.EmailsForAppend | main.py:166 | selecting one user's emails distributes over concatenation |
| Runs.StepIsLocal | main.py:123-168 | what a call does for its sender depends only on the sender's count and transcript |
| Runs.RunForUserCons | main.py:123 | the run of a user's messages starts with the step for that user's first message |
| Runs.IsolatedState | main.py:123-168 | a user's final count and transcript depend only on that user's messages |
| Runs.IsolatedReplies | main.py:123-168 | the replies to a user depend only on that user's messages |
| Runs.IsolatedEmails | main.py:123-168 | the emails about a user depend only on that user's messages |
| Runs.RunIsolation | main.py:123-168 | what a user sees in any run (replies, emails, final count and transcript) is what that user alone would see |

## Left out

- The language-model request (the system prompt, the model parameters, the
  network call) is not modelled. Only its result is, as the `Completion` input:
  the content of the first choice, or the text of the exception it raised.
- The SMTP delivery, the login and the subject line with the current time are
  not modelled. Only the body built by the join is. Delivery failures are caught
  and only printed, so sending has no effect on the handler.
- Logging (`print`), the Flask webhook, the health check, the aiogram bot and
  dispatcher, the `/start` handler, the event loop and webhook registration are
  framework plumbing and are not modelled.
- Environment loading and the startup asserts are configuration. The location
  string is a parameter of `Sessions` and of `Step`. It may be unset, and then
  the reply prints `None`, as Python formats `None`.
- `keep_alive.py` is not part of this model.
- Interleaving is not modelled. `Step` and `Run` assume that two calls for the
  same user never overlap. In the code they can: each webhook update is handled
  as its own task (main.py:186), and the handler pauses at its `await` calls.
  - During the pause at the answer (main.py:162), the bot line is already
    appended but the limit check (main.py:164) has not run. If another message
    from the same user is counted in that pause, a 25th message's count becomes
    26. The check then fails: no closing message, no email, no deletion. The
    user stays locked out, although `Run` would have exported.
  - During the pause at the closing message (main.py:165), the deletions
    (main.py:167-168) have not run. A message from the same user handled then
    is counted as the 26th and gets the quota reply. In `Run` it would already
    be counted as the first message of a new session.
  - The language-model call is synchronous, so nothing interleaves between the
    user line (main.py:148) and the bot line (main.py:161).
  - Messages from different users only touch their own entries, so they do not
    interfere, in the code or in `Runs.RunIsolation`.
- A message without text is not modelled. The catch-all handler is registered
  for text messages, so `message.text` is a string.
- Failures of the platform's reply calls are not modelled. A failure of the
  answer or closing reply (main.py:162, 165) would raise inside the `try` block
  after the bot line was appended, which would skip the export. The replies to
  a blank, too long, over-limit or location message (main.py:126, 130, 136,
  140) are outside the `try`, so their failure would end the call with an
  exception; at main.py:136 and 140 the count is already raised.
- Other exceptions inside the `try` block are covered only when they come before
  the bot line is appended. An unexpected response shape raises there, so it is
  covered by `Failure(detail)`.
- `Bot.AsksLocation`: `lower()` is left out. Both trigger words are Arabic, which
  has no case, so lower-casing cannot create or destroy a match.
- `Bot.Sessions.HandleMessage`, `Bot.Sessions.HandleModelTurn`: their contracts
  relate the new state to the old state (`old`). The properties of that state
  are proved about `Step`, which the methods equal.
- The replies are values of the datatype `Reply`. Their exact texts are given by
  `Bot.ReplyText`. About them the model proves only that the variable parts
  (the answer, the exception text, the location) are sent unchanged.
