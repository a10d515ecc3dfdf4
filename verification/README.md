# homework_bot decision logic in Dafny

The homework bot polls a review service for the status of the most recent
homework submission and forwards changes to a chat. This project models the
decisions it makes on the way. Network, chat and clock are left out.

- **Json** (`json.dfy`): the decoded JSON answer as a `Value` datatype. It also
  defines the Python semantics the bot applies to that answer: truthiness
  (`if homework:`) and `str(...)` inside f-strings.
- **Outcomes** (`outcomes.dfy`): Python's `None` becomes `Option`, and raised
  exceptions become a `Result`. A `Failure` carries the exception class
  (`TypeError`, `KeyError`, or whatever the request raised) and its text.
  `Describe` is `str(error)`.
- **Homework** (`homework.py`'s top half):
  - `check_tokens` as `CheckTokens`.
  - The verdict table.
  - The response validator `check_response` as `CheckResponse`. Its four shape
    checks run in source order, and an empty list means "no update".
  - The status formatter `parse_status` as `ParseStatus`. It takes the first
    record whatever its JSON type, so Python's `in` and `[...]` on a list, a
    string or a scalar are modelled too.
- **PollLoop** (`main`):
  - One iteration of the `while True` body is the pure transition `Step`. It
    runs on a `LoopState` holding the `from_date` timestamp and two
    de-duplication registers: `last_status` and `last_message_error`.
  - The input is the outcome of the request.
  - The output is the new state plus the messages sent.
  - `Run` folds `Step` over a finite sequence of request outcomes.
  - `Start` is the token gate and the initial state.

Behaviour of the code worth knowing when reading the model:
- The code keeps two independent registers, `last_status` and
  `last_message_error`. A successful cycle never clears the error register.
  So an error that recurs after a recovery is not re-sent
  (`RecurringErrorSuppressed`).
- An unknown status raises `KeyError`, the same class as a missing key.
- The timestamp is whatever `current_date` holds. Its type is never checked, so
  it is a JSON `Value`.
- The timestamp is advanced before the record is parsed, so a parse failure
  still advances it.
- `str(KeyError(t))` quotes `t`, so validator and formatter key errors reach
  the chat as `Сбой в работе программы: '<text>'`.

## Model

| member | source | states |
|---|---|---|
| Homework.CheckTokens | homework.py:40-54 | true exactly when all three tokens are set and non-empty |
| Homework.CheckResponse | homework.py:84-102 | each error arises exactly when its check is the first to fail, in source order: not a dict, no `homeworks`, no `current_date`, `homeworks` not a list. Success happens exactly on well-formed answers. An empty list yields "no update", otherwise element 0 |
| Homework.CheckResponseIgnoresTail | homework.py:99-102 | replacing every element after the first leaves the validator's outcome unchanged |
| Homework.CheckResponseIgnoresOtherKeys | homework.py:86-98 | keys other than `homeworks` (and the presence of `current_date`) never change the validator's outcome |
| Homework.IsSubstringIffOccurs | homework.py:107-112 | the recursive substring test used for `in` on a string holds exactly when the key occurs at some position of the string |
| Homework.Contains | homework.py:107-112 | Python `in` succeeds on dicts, lists and strings and raises TypeError on every other value. It is key membership on a dict, element equality on a list and substring occurrence on a string |
| Homework.Subscript | homework.py:114-115 | `record[key]` yields a value only for a dict holding the key, and then the stored value |
| Homework.UnknownNumericStatusesDiffer | homework.py:117-123 | two numeric statuses give the same unknown-status KeyError text exactly when they are the same number |
| Homework.LookupVerdict | homework.py:117-125 | succeeds exactly for the three table statuses, with that status's verdict. Any other hashable status is a KeyError naming it |
| Homework.ParseStatus | homework.py:105-127 | succeeds exactly on a dict with a name and a known status, giving `Изменился статус проверки работы "<name>". <verdict>`. A missing name is reported before a missing status, and an unknown status is a KeyError. It never fails with a request error |
| Homework.ParseStatusReadsNameAndStatus | homework.py:107-127 | two dict records that agree on name and status format identically |
| Homework.VerdictEndings | homework.py:25-29 | the three verdicts end differently, so none is a suffix of another |
| Homework.StatusMessageInjective | homework.py:125-127 | two status messages are equal exactly when the name texts and the statuses are equal |
| Homework.SameMessageIffSameRecord | homework.py:105-127 | two recognised records format equally exactly when their rendered names and statuses agree |
| Json.DecimalRoundTrip | homework.py:127 | the decimal text of an integer reads back to that integer, so `str(int)` loses nothing |
| Json.DecimalTextInjective | homework.py:121-122 | distinct integers have distinct texts |
| Outcomes.Describe | homework.py:152 | `str(error)` puts a KeyError's text between an opening and a closing single quote, and returns the other texts unchanged |
| PollLoop.Start | homework.py:130-137 | the loop starts exactly when the tokens pass. The first `from_date` is now minus 604800 and both registers are empty |
| PollLoop.Report | homework.py:151-156 | the error message goes into the error register. It is sent exactly when it differs from the previous error message. Timestamp and status register are unchanged |
| PollLoop.Step | homework.py:139-156 | the timestamp becomes `current_date` exactly when the answer passes the validator. At most one message is sent. A cycle that raises nothing keeps the error register and sends only status messages; one that raises keeps the status register and sends only error messages. Every message differs from its register's previous value, a register changes only when its message is sent, and it holds that message afterwards |
| PollLoop.Run | homework.py:138-159 | n cycles send at most n messages |
| PollLoop.StepUnreachable | homework.py:140-156 | a failed request keeps timestamp and status register. It sends its error message only if that differs from the last error message |
| PollLoop.StepRejectedAnswer | homework.py:142-156 | an answer the validator rejects leaves the timestamp unchanged. The validator's error is reported, de-duplicated |
| PollLoop.StepNoUpdate | homework.py:143-144 | an empty list or a falsy first record moves only the timestamp and sends nothing |
| PollLoop.StepParseFailure | homework.py:143-156 | a record the formatter rejects still advances the timestamp and keeps the status register. Its error is reported, de-duplicated |
| PollLoop.StepStatus | homework.py:144-150 | a recognised record's message is sent exactly when it differs from the last status message, and it is then stored. The error register is kept |
| PollLoop.StatusNoticeIffRecordChanged | homework.py:144-148 | a recognised record is announced exactly when its rendered name or status differs from the record behind the stored status message |
| PollLoop.StepIdempotent | homework.py:139-156 | repeating a request outcome sends nothing and changes no state |
| PollLoop.RunRepeatNotifiesOnce | homework.py:144-150 | two cycles on the same outcome behave as one |
| PollLoop.RecurringErrorSuppressed | homework.py:151-156 | an error that recurs after a successful cycle is not sent again |
| PollLoop.RunTimestamp | homework.py:137-143 | after any number of cycles the timestamp is a function of the request outcomes alone, the fold of the one-cycle timestamp rule. The registers and the messages sent never influence it |
| PollLoop.RunTimestampLastValidated | homework.py:140-143 | after any number of cycles, the timestamp is the `current_date` of the last answer that passed the validator |
| PollLoop.RunTimestampNoneValidated | homework.py:140-143 | when no answer passes the validator, the timestamp stays at its start value |
| PollLoop.RunDeduplicates | homework.py:144-156 | over any number of cycles, no message repeats the previous message of its kind. Each register ends holding the last message of its kind |
| PollLoop.ScenarioApproved | homework.py:142-148 | an answer with one approved `hw1` record and `current_date` 1000 sends the approved message for `hw1`. The next request uses 1000 |
| PollLoop.ScenarioUnknownStatus | homework.py:117-123 | a record with status `unknown` is reported once over two identical cycles, as a quoted KeyError text |

## Left out

- `get_api_answer` (homework.py:67-81) is not modelled. Its outcome is the step's input `Fetch`: a decoded body, or a failure with an opaque text. A non-OK HTTP status, a transport error and a JSON decoding error are all that failure.
- `send_message` and the chat bot client (homework.py:57-64, 136) are not modelled. Sending is appending a `Notice` to the step's output. Transport failures are swallowed in the source and so cannot influence the loop.
- `load_dotenv`, `os.getenv`, the logging configuration, every logger call and `print(response)` are not modelled. They are environment and I/O effects with no bearing on the decisions. The tokens are `Option<string>` parameters.
- `time.time()` and `time.sleep(RETRY_PERIOD)` are not modelled. The current time is the parameter `now` of `Start`. The 600-second sleep is outside the model.
- The endless `while True` is not modelled as such. `Run` covers any finite prefix of it.
- `exceptions.ResponseError` is not part of this model. Its text is whatever the request failure carries.
- JSON floating-point numbers are not modelled: every number is an integer.
- JSON objects are maps, so key order and duplicate keys of the raw text are not represented.
- Json.Text: `str()` of a list or dict (Python's repr of the container) is rendered as the placeholder `[...]` or `{...}`. This matters only for a homework name that is a container.
- Outcomes.Describe: the quotes Python adds for a KeyError are modelled as plain single quotes. The escaping Python's repr applies to quotes, backslashes and unprintable characters inside the text is not modelled.
- Built-in TypeError texts (a value that is not iterable, not subscriptable or unhashable) follow the CPython 3.11-3.13 wording. Other versions word them differently.
- PollLoop.ScenarioApproved and PollLoop.ScenarioUnknownStatus state the expected texts through the named template pieces (`MessagePrefix`, `Approved`, `ErrorPrefix`). They do not spell the texts out as single literals.
