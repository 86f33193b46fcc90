# homework_bot decision logic in Dafny

The bot polls the Practicum homework-status API every ten minutes and
tells a Telegram chat when the review status of the most recent homework
changes. This project models its decision logic as pure functions:

- `Python` (python.dfy): decoded JSON values, the exception classes the
  bot's `except` chain distinguishes, and the Python operators the bot
  applies to decoded values (`value[key]`, `value[0]`, `key in value`),
  with CPython's outcome for every kind of value.
- `Homework` (homework.dfy): the verdict table, the startup token check,
  the answer validator `check_response` and the status interpreter
  `parse_status`.
- `PollLoop` (poll_loop.dfy): one iteration of the `while True` loop of
  `main` as a function `Step` over the state `(timestamp, status_cache)`
  and one fetch outcome; the `except` chain as an ordered list of clauses;
  the endless loop as the fold `Final`/`Trace` of `Step` over a finite
  sequence of fetch outcomes, plus an imperative `Poll` that runs it.
- `Wrappers` (wrappers.dfy): `Option` and `Result`.

A fetch outcome is an input (`Result<Json, Exc>`): the HTTP call, the chat
client, logging, the environment and the clock are not modelled. Messages
the bot sends are outputs of `Step`: `notice` (a status notification) and
`alert` (an exception forwarded to the chat). `fault` records the exception
that ended a cycle, whether forwarded or swallowed.

Behaviour of the code worth knowing:

- The notification is the Russian text `Изменился статус проверки работы "<name>".<verdict>`
  with no space between `".` and the verdict.
- An empty `homeworks` list makes `[0]` raise `IndexError`, which the
  catch-all clause swallows. Nothing is sent and the cache is kept.
- The cycle reads `status` by subscript before `parse_status` checks for
  `homework_name`, so a record lacking both is reported as a missing `status`.
- The token check inspects only the first secret (see Findings).
- The `from_date` cursor is 0 and never advances.
- Error notifications are sent directly from the `except` clauses, not
  through the failure-swallowing `send_message` wrapper.

## Model

| member | source | states |
|---|---|---|
| `Python.Subscript` | homework.py:118 | `value[key]` succeeds exactly on a dictionary holding the key and yields its entry; a dictionary without it raises `KeyError(key)`, any other value raises `TypeError` |
| `Python.First` | homework.py:118 | `list[0]` yields the first element of a non-empty list and raises `IndexError` on an empty one |
| `Python.In` | homework.py:80 | `key in value` is key membership on a dictionary, element membership on a list, and raises `TypeError` exactly on values that are not iterable |
| `Homework.CheckTokens` | homework.py:30-39 | the token check as written passes exactly when the first secret is set |
| `Homework.CheckTokensIgnoresLaterSecrets` | homework.py:34-39 | the telegram token and chat id never affect the token check as written |
| `Homework.CheckTokensAcceptsMissingChatId` | homework.py:34-39 | a configuration without a chat id passes the check as written but fails the intended one |
| `Homework.AllPresent` | homework.py:34-37 | the intended reading of the loop: a list of secrets passes exactly when every element is set |
| `Homework.TokensPresent` | homework.py:106-108 | the intended startup check passes exactly when all three secrets are set |
| `Homework.CheckResponse` | homework.py:67-75 | accepts exactly a dictionary whose `homeworks` entry is a list and returns it unchanged; otherwise fails, in order, with `TypeError` "not a dictionary", `KeyError` "no homeworks key", `TypeError` "not a list" |
| `Homework.ResponseFailuresDistinct` | homework.py:69-74 | two answers rejected with the same exception failed the same check: the three rejections are distinguishable |
| `Homework.KnownStatus` | homework.py:85 | looking a status up in the verdict table raises `TypeError` exactly for a list or dictionary and otherwise answers whether it is one of the three status strings |
| `Homework.ParseStatus` | homework.py:78-90 | succeeds exactly on a dictionary with `homework_name` and a status from the table, returning the notification for that name and verdict; a missing name gives `KeyError` with its message, a missing status `KeyError('status')`, an unknown status `TypeError` "неизвестный статус" (an unhashable one a `TypeError` too), a non-dictionary a `KeyError` or `TypeError` |
| `Homework.ParseStatusReadsOnlyNameAndStatus` | homework.py:80-90 | records that agree on name and status get the same outcome, whatever their other fields |
| `Homework.VerdictEndings` | homework.py:23-27 | any two different verdict texts differ in their last or next-to-last character |
| `Homework.NotificationInjective` | homework.py:87-90 | equal notifications come from the same status and the same displayed name |
| `PollLoop.Handler` | homework.py:127-140 | the chosen clause is the first in the chain that catches the exception; none is chosen only when no clause catches it |
| `PollLoop.HandlerOfChain` | homework.py:127-139 | connection, request, type and key errors are caught by their own clauses; every other exception by the catch-all |
| `PollLoop.Alert` | homework.py:127-140 | an exception is forwarded to the chat exactly when it is a `ConnectionError`, `RequestException`, `TypeError` or `KeyError`; any other is swallowed |
| `PollLoop.AttemptAgreesWithObserved` | homework.py:116-119 | the steps before the comparison succeed exactly when the answer is well shaped and its first homework is a record with a name and a known status, and then yield that status and its notification |
| `PollLoop.Step` | homework.py:115-140 | the cursor is kept; a failed cycle keeps the state, sends no notification and forwards its exception as the except chain decides; that exception is the fetch's own, the validator's for a rejected answer, an `IndexError` for an empty list, or, for a well-shaped answer with a first homework, the one from reading its `status` or else the interpreter's; a cycle that reaches the comparison sends the notification exactly when the status differs from the cache, and the cache becomes that status |
| `PollLoop.EmptyListIsSilent` | homework.py:118 | an empty `homeworks` list ends the cycle with `IndexError`, sending nothing and keeping the state |
| `PollLoop.ShapeFailureIsForwarded` | homework.py:117 | a rejected answer keeps the state and forwards the validator's exception to the chat |
| `PollLoop.StatusIsReadBeforeName` | homework.py:118-119 | for any answer whose `homeworks` list starts with a dictionary lacking both name and status, the cycle keeps the state and forwards `KeyError('status')` |
| `PollLoop.BadRecordIsForwarded` | homework.py:119-138 | a first homework with a `status` that the interpreter rejects keeps the state and forwards the interpreter's `KeyError` or `TypeError` to the chat |
| `PollLoop.UnknownStatusIsForwarded` | homework.py:85-86 | for any answer whose first homework has a name and a hashable status outside the verdict table, the cycle keeps the state and forwards `TypeError` "неизвестный статус" (a list or dictionary status fails earlier with Python's unhashable-type `TypeError`) |
| `PollLoop.RepeatedStatusIsSilent` | homework.py:120-125 | the second of two cycles seeing the same status sends nothing |
| `PollLoop.FirstRejectionIsAnnounced` | homework.py:118-123 | from startup, an answer naming `proj1` as rejected is announced with the rejection verdict and caches `rejected` |
| `PollLoop.ApprovalAfterReviewIsAnnounced` | homework.py:118-123 | after `reviewing`, an approved `proj1` is announced with the approval verdict and caches `approved` |
| `PollLoop.FinalKeepsTimestamp` | homework.py:111-116 | no run of cycles moves the cursor |
| `PollLoop.FinalCacheIsLastSeen` | homework.py:112-125 | after a run the cache is the last status any cycle saw, or the initial value when none did |
| `PollLoop.LastSeenIsKnown` | homework.py:119-123 | the last status seen is the initial value or one of the three known statuses |
| `PollLoop.RunKeepsCursorAndCache` | homework.py:111-125 | from startup the cursor stays 0 and the cache holds the empty string or a known status |
| `PollLoop.NoticeExactlyAtChanges` | homework.py:120-123 | cycle `i` sends a notification exactly when its status differs from the last status seen before it |
| `PollLoop.NoticeCountIsChangeCount` | homework.py:114-125 | a run sends as many notifications as there are positions whose status differs from the one seen last |
| `PollLoop.Start` | homework.py:106-112 | the bot exits with the missing-variables message exactly when a secret is unset, and otherwise runs the cycles from cursor 0 and an empty cache |
| `PollLoop.Poll` | homework.py:111-142 | the loop over a finite sequence of fetches ends in the fold's state with cursor 0 and the last status seen cached, sends notifications whose number equals the number of status changes, and forwards the errors of the cycles in order |

## Left out

- The HTTP call of `get_api_answer` (homework.py:51-64): a fetch outcome is an input, either a decoded answer or the exception raised. Its use of an unbound variable after a failed request, and the bare `Exception` on a non-200 answer, both reach the loop as `OtherError`.
- The Telegram client and `send_message` (homework.py:42-48, 110): sends are outputs of `Step`. A failed send is not modelled; the status notification path swallows it, while a failure of the unwrapped sends in the `except` clauses would escape the loop.
- `Alert`: records the exception object the clause hands to the chat client, not the text the client would derive from it.
- Logging (homework.py:95-104 and the log calls). The misspelt `logger.INFO` call on an unchanged status raises an `AttributeError` that the catch-all swallows after the cache decision; the model records no fault for such a cycle.
- `load_dotenv` and `os.getenv` (homework.py:10-15): the three secrets are the `Secrets` parameter.
- `time.sleep(RETRY_PERIOD)` and the non-terminating loop (homework.py:114, 142): the model runs finitely many cycles.
- `SystemExit` (homework.py:106-108): modelled as the `Exited` outcome of `Start`.
- The unused message built by the catch-all clause (homework.py:140).
- `Python.Display`: renders a list or dictionary `homework_name` as `[...]` or `{...}` instead of Python's `str()` of it, and JSON numbers are integers only (no floats).
- The texts of exceptions raised by the interpreter itself (subscript, membership and hashing errors) follow one CPython version; only their classes matter to the bot.
- `Start`: uses the corrected token check, so it exits whenever any secret is unset; the bot as written exits only when the first one is.

## Findings

| source | as written | input that shows it | evidently intended | confidence | as-written member | corrected member |
|---|---|---|---|---|---|---|
| homework.py:34-39 | both branches of the loop body return, so only the first secret is ever checked | a practicum token and telegram token set, chat id unset: the check passes | fail when any of the three secrets is unset | high; not executed | `Homework.CheckTokensAcceptsMissingChatId` | `Homework.TokensPresent` |
