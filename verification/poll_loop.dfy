/**
 The body of the bot's endless poll loop (`main` in homework.py) as a pure
 transition. The request to the review API is not made here: its outcome is
 the step's input. Sending a chat message is appending a notice to the
 step's output; the sleep between cycles is left out.
 */
module PollLoop {
  import opened Json
  import opened Outcomes
  import opened Homework

  const OneWeekInUnix := 604800

  const ErrorPrefix := "Сбой в работе программы: "

  /**
   What survives from one cycle to the next: the `from_date` of the next
   request, and the two de-duplication registers, one for status messages
   and one for error messages.
   */
  datatype LoopState = LoopState(timestamp: Value, lastStatus: string, lastError: string)

  /** The outcome of `get_api_answer`: a raised exception with its text, or the decoded body. */
  datatype Fetch = Unreachable(reason: string) | Answered(body: Value)

  /** A message sent to the chat, tagged with the branch that sent it. */
  datatype Notice = StatusNotice(text: string) | ErrorNotice(text: string)

  datatype Cycle = Cycle(state: LoopState, sent: seq<Notice>)

  /**
   The start of `main`: nothing runs unless all tokens are present; the
   first request asks for the last week, counted back from `now`.
   */
  function Start(practicumToken: Option<string>, telegramToken: Option<string>,
                 chatId: Option<string>, now: int): (r: Option<LoopState>)
    ensures r.Some? <==> Present(practicumToken) && Present(telegramToken) && Present(chatId)
    ensures r.Some? ==> r.value.timestamp == Number(now - 604800)
                        && r.value.lastStatus == "" && r.value.lastError == ""
  {
    if CheckTokens(practicumToken, telegramToken, chatId)
    then Some(LoopState(Number(now - OneWeekInUnix), "", ""))
    else None
  }

  /** The `except` branch: report the error unless it is the one reported last. */
  function Report(s: LoopState, e: Failure): (r: Cycle)
    ensures r.state.timestamp == s.timestamp && r.state.lastStatus == s.lastStatus
    ensures r.state.lastError == ErrorPrefix + Describe(e)
    ensures r.sent == if ErrorPrefix + Describe(e) == s.lastError then []
                      else [ErrorNotice(ErrorPrefix + Describe(e))]
  {
    var message := ErrorPrefix + Describe(e);
    if message != s.lastError then Cycle(s.(lastError := message), [ErrorNotice(message)])
    else Cycle(s, [])
  }

  /** An answer that passes the validator. */
  ghost predicate Validates(fetch: Fetch) {
    fetch.Answered? && WellFormedResponse(fetch.body)
  }

  /**
   The `from_date` for the next request: the answer's `current_date` once
   the answer passed the validator, the old one otherwise.
   */
  ghost function NextTimestamp(timestamp: Value, fetch: Fetch): Value {
    if Validates(fetch)
    then fetch.body.fields[CurrentDateKey]
    else timestamp
  }

  /** The homework record the validator hands on, when Python's `if homework:` admits it. */
  ghost predicate HasUpdate(response: Value) {
    && WellFormedResponse(response)
    && response.fields[HomeworksKey].items != []
    && Truthy(response.fields[HomeworksKey].items[0])
  }

  /** A fetch whose cycle raises nothing. */
  ghost predicate Succeeds(fetch: Fetch) {
    && fetch.Answered?
    && WellFormedResponse(fetch.body)
    && (HasUpdate(fetch.body) ==> ParseStatus(fetch.body.fields[HomeworksKey].items[0]).Ok?)
  }

  /** One pass of the `try` block and its `except` handler. */
  function Step(s: LoopState, fetch: Fetch): (r: Cycle)
    ensures r.state.timestamp == NextTimestamp(s.timestamp, fetch)
    ensures |r.sent| <= 1
    ensures Succeeds(fetch) ==> r.state.lastError == s.lastError
    ensures Succeeds(fetch) ==> forall n :: n in r.sent ==> n.StatusNotice?
    ensures !Succeeds(fetch) ==> r.state.lastStatus == s.lastStatus
    ensures !Succeeds(fetch) ==> forall n :: n in r.sent ==> n.ErrorNotice?
    ensures forall t :: StatusNotice(t) in r.sent ==> t != s.lastStatus && r.state.lastStatus == t
    ensures forall t :: ErrorNotice(t) in r.sent ==> t != s.lastError && r.state.lastError == t
    ensures r.state.lastStatus != s.lastStatus ==> r.sent == [StatusNotice(r.state.lastStatus)]
    ensures r.state.lastError != s.lastError ==> r.sent == [ErrorNotice(r.state.lastError)]
  {
    match fetch
    case Unreachable(reason) => Report(s, FetchError(reason))
    case Answered(response) =>
      match CheckResponse(response)
      case Err(e) => Report(s, e)
      case Ok(homework) =>
        // the timestamp moves before the record is parsed, so it moves even if parsing raises
        var advanced := s.(timestamp := response.fields[CurrentDateKey]);
        if homework.None? || !Truthy(homework.value) then Cycle(advanced, [])
        else
          match ParseStatus(homework.value)
          case Err(e) => Report(advanced, e)
          case Ok(current) =>
            if current != s.lastStatus then Cycle(advanced.(lastStatus := current), [StatusNotice(current)])
            else Cycle(advanced, [])
  }

  /** The loop over a finite sequence of request outcomes. */
  function Run(s: LoopState, fetches: seq<Fetch>): (r: Cycle)
    ensures |r.sent| <= |fetches|
    decreases |fetches|
  {
    if fetches == [] then Cycle(s, [])
    else
      var first := Step(s, fetches[0]);
      var rest := Run(first.state, fetches[1..]);
      Cycle(rest.state, first.sent + rest.sent)
  }

  /*** The step, branch by branch ***/

  /** A failed request: only the error register can change, and the timestamp stays. */
  lemma StepUnreachable(s: LoopState, reason: string)
    ensures var r := Step(s, Unreachable(reason));
            var message := ErrorPrefix + reason;
            && r.state == s.(lastError := message)
            && r.sent == (if message == s.lastError then [] else [ErrorNotice(message)])
  {
  }

  /** An answer the validator rejects: the validator's error is reported; the timestamp stays. */
  lemma StepRejectedAnswer(s: LoopState, response: Value)
    requires !WellFormedResponse(response)
    ensures var r := Step(s, Answered(response));
            var message := ErrorPrefix + Describe(CheckResponse(response).error);
            && r.state == s.(lastError := message)
            && r.sent == (if message == s.lastError then [] else [ErrorNotice(message)])
  {
  }

  /** No update (empty list, or a falsy first record): only the timestamp moves, nothing is sent. */
  lemma StepNoUpdate(s: LoopState, response: Value)
    requires WellFormedResponse(response) && !HasUpdate(response)
    ensures Step(s, Answered(response)) == Cycle(s.(timestamp := response.fields[CurrentDateKey]), [])
  {
  }

  /**
   A record the formatter rejects: the timestamp has already moved to
   `current_date`, the status register stays, and the error is reported.
   */
  lemma StepParseFailure(s: LoopState, response: Value)
    requires HasUpdate(response)
    requires ParseStatus(response.fields[HomeworksKey].items[0]).Err?
    ensures var r := Step(s, Answered(response));
            var message := ErrorPrefix + Describe(ParseStatus(response.fields[HomeworksKey].items[0]).error);
            && r.state == LoopState(response.fields[CurrentDateKey], s.lastStatus, message)
            && r.sent == (if message == s.lastError then [] else [ErrorNotice(message)])
  {
  }

  /**
   A recognised record: its message is sent exactly when it differs from
   the last status message, and then becomes the last status message; the
   error register is left alone.
   */
  lemma StepStatus(s: LoopState, response: Value)
    requires HasUpdate(response)
    requires ParseStatus(response.fields[HomeworksKey].items[0]).Ok?
    ensures var message := ParseStatus(response.fields[HomeworksKey].items[0]).value;
            var r := Step(s, Answered(response));
            && r.state == LoopState(response.fields[CurrentDateKey], message, s.lastError)
            && (r.sent == [StatusNotice(message)] <==> message != s.lastStatus)
            && (r.sent == [] <==> message == s.lastStatus)
  {
  }

  /**
   When the status register holds the message of an earlier record, a new
   recognised record is announced exactly when its rendered name or its
   status differs from that earlier record's.
   */
  lemma StatusNoticeIffRecordChanged(s: LoopState, previous: Value, response: Value)
    requires Recognised(previous) && s.lastStatus == ParseStatus(previous).value
    requires HasUpdate(response) && Recognised(response.fields[HomeworksKey].items[0])
    ensures var h := response.fields[HomeworksKey].items[0];
            Step(s, Answered(response)).sent != [] <==>
              Text(h.fields[NameKey]) != Text(previous.fields[NameKey])
              || h.fields[StatusKey] != previous.fields[StatusKey]
  {
    var h := response.fields[HomeworksKey].items[0];
    SameMessageIffSameRecord(h, previous);
    StepStatus(s, response);
  }

  /*** Properties across cycles ***/

  /**
   Repeating a request outcome changes nothing and sends nothing: the
   second cycle finds its message, status or error, already in a register.
   */
  lemma StepIdempotent(s: LoopState, fetch: Fetch)
    ensures var first := Step(s, fetch);
            Step(first.state, fetch) == Cycle(first.state, [])
  {
  }

  /** Two cycles on the same answer notify once, as one cycle would. */
  lemma {:induction false} RunRepeatNotifiesOnce(s: LoopState, fetch: Fetch)
    ensures Run(s, [fetch, fetch]) == Run(s, [fetch])
  {
    var first := Step(s, fetch);
    StepIdempotent(s, fetch);
    assert [fetch, fetch][1..] == [fetch];
    assert Run(first.state, []) == Cycle(first.state, []);
    assert Run(first.state, [fetch]) == Cycle(first.state, []);
  }

  /**
   The error register is never cleared by a successful cycle: an error
   that recurs after a successful cycle, with no other error in between,
   is not sent again.
   */
  lemma RecurringErrorSuppressed(s: LoopState, failing: Fetch, good: Fetch)
    requires !Succeeds(failing) && Succeeds(good)
    ensures var afterFailure := Step(s, failing).state;
            var afterGood := Step(afterFailure, good).state;
            Step(afterGood, failing).sent == []
  {
    var afterFailure := Step(s, failing).state;
    StepIdempotent(s, failing);
    assert Step(afterFailure, failing).sent == [];
  }

  /** The `from_date` after a sequence of cycles, computed from the outcomes alone. */
  ghost function LastTimestamp(timestamp: Value, fetches: seq<Fetch>): Value
    decreases |fetches|
  {
    if fetches == [] then timestamp
    else LastTimestamp(NextTimestamp(timestamp, fetches[0]), fetches[1..])
  }

  /**
   The timestamp is driven by the answers only: the registers and the
   messages sent never influence which `from_date` the next request uses.
   */
  lemma {:induction false} RunTimestamp(s: LoopState, fetches: seq<Fetch>)
    ensures Run(s, fetches).state.timestamp == LastTimestamp(s.timestamp, fetches)
    decreases |fetches|
  {
    if fetches != [] {
      RunTimestamp(Step(s, fetches[0]).state, fetches[1..]);
    }
  }

  lemma {:induction false} LastTimestampNoneValidated(timestamp: Value, fetches: seq<Fetch>)
    requires forall j :: 0 <= j < |fetches| ==> !Validates(fetches[j])
    ensures LastTimestamp(timestamp, fetches) == timestamp
    decreases |fetches|
  {
    if fetches != [] {
      assert forall j :: 0 <= j < |fetches| - 1 ==> fetches[1..][j] == fetches[j + 1];
      LastTimestampNoneValidated(timestamp, fetches[1..]);
    }
  }

  lemma {:induction false} LastTimestampLastValidated(timestamp: Value, fetches: seq<Fetch>, k: nat)
    requires k < |fetches| && Validates(fetches[k])
    requires forall j :: k < j < |fetches| ==> !Validates(fetches[j])
    ensures LastTimestamp(timestamp, fetches) == fetches[k].body.fields[CurrentDateKey]
    decreases |fetches|
  {
    assert forall j :: 0 <= j < |fetches| - 1 ==> fetches[1..][j] == fetches[j + 1];
    if k == 0 {
      LastTimestampNoneValidated(NextTimestamp(timestamp, fetches[0]), fetches[1..]);
    } else {
      LastTimestampLastValidated(NextTimestamp(timestamp, fetches[0]), fetches[1..], k - 1);
    }
  }

  /**
   After any number of cycles the next request's `from_date` is the
   `current_date` of the last answer that passed the validator; answers
   after it that failed, and failed requests, leave it alone.
   */
  lemma RunTimestampLastValidated(s: LoopState, fetches: seq<Fetch>, k: nat)
    requires k < |fetches| && Validates(fetches[k])
    requires forall j :: k < j < |fetches| ==> !Validates(fetches[j])
    ensures Run(s, fetches).state.timestamp == fetches[k].body.fields[CurrentDateKey]
  {
    RunTimestamp(s, fetches);
    LastTimestampLastValidated(s.timestamp, fetches, k);
  }

  /** When no answer passes the validator, the loop keeps asking from the start value. */
  lemma RunTimestampNoneValidated(s: LoopState, fetches: seq<Fetch>)
    requires forall j :: 0 <= j < |fetches| ==> !Validates(fetches[j])
    ensures Run(s, fetches).state.timestamp == s.timestamp
  {
    RunTimestamp(s, fetches);
    LastTimestampNoneValidated(s.timestamp, fetches);
  }

  /** The last status and error texts after a sequence of notices. */
  function LastStatusAfter(status: string, sent: seq<Notice>): string
    decreases |sent|
  {
    if sent == [] then status
    else LastStatusAfter(if sent[0].StatusNotice? then sent[0].text else status, sent[1..])
  }

  function LastErrorAfter(error: string, sent: seq<Notice>): string
    decreases |sent|
  {
    if sent == [] then error
    else LastErrorAfter(if sent[0].ErrorNotice? then sent[0].text else error, sent[1..])
  }

  /**
   Every notice differs from the last notice of its own kind before it
   (or from the register's starting value): no status message and no error
   message is ever sent twice in a row.
   */
  ghost predicate Deduplicated(status: string, error: string, sent: seq<Notice>)
    decreases |sent|
  {
    sent == [] ||
    match sent[0]
    case StatusNotice(t) => t != status && Deduplicated(t, error, sent[1..])
    case ErrorNotice(t) => t != error && Deduplicated(status, t, sent[1..])
  }

  /**
   Over any number of cycles the notices are de-duplicated per register, and
   the registers end up holding the last notice of their kind.
   */
  lemma {:induction false} RunDeduplicates(s: LoopState, fetches: seq<Fetch>)
    ensures var r := Run(s, fetches);
            && Deduplicated(s.lastStatus, s.lastError, r.sent)
            && r.state.lastStatus == LastStatusAfter(s.lastStatus, r.sent)
            && r.state.lastError == LastErrorAfter(s.lastError, r.sent)
    decreases |fetches|
  {
    if fetches != [] {
      var first := Step(s, fetches[0]);
      var rest := Run(first.state, fetches[1..]);
      RunDeduplicates(first.state, fetches[1..]);
      var sent := first.sent + rest.sent;
      if first.sent != [] {
        assert sent[0] == first.sent[0];
        assert sent[1..] == rest.sent;
      } else {
        assert sent == rest.sent;
      }
    }
  }

  /*** Worked scenarios ***/

  const Hw1Approved := Object(map[NameKey := String("hw1"), StatusKey := String("approved")])

  /** One approved homework: its message is sent and the next request starts from 1000. */
  lemma ScenarioApproved(s: LoopState)
    requires s.lastStatus == "" && s.lastError == ""
    ensures var response := Object(map[HomeworksKey := Array([Hw1Approved]), CurrentDateKey := Number(1000)]);
            var r := Step(s, Answered(response));
            && r.sent == [StatusNotice(MessagePrefix + "hw1" + MessageSeparator + Approved)]
            && r.state.timestamp == Number(1000)
  {
    var response := Object(map[HomeworksKey := Array([Hw1Approved]), CurrentDateKey := Number(1000)]);
    assert CheckResponse(response) == Ok(Some(Hw1Approved));
    assert ParseStatus(Hw1Approved) == Ok(StatusMessage("hw1", Approved));
  }

  /** An unknown status is a key error, reported once across two identical cycles. */
  lemma ScenarioUnknownStatus(s: LoopState)
    requires s.lastError == ""
    ensures var record := Object(map[NameKey := String("hw1"), StatusKey := String("unknown")]);
            var response := Object(map[HomeworksKey := Array([record]), CurrentDateKey := Number(1000)]);
            var message := ErrorPrefix + "'" + "Ключ " + "unknown" + " отсутствует в словаре HOMEWORK_VERDICTS" + "'";
            Run(s, [Answered(response), Answered(response)]).sent == [ErrorNotice(message)]
  {
    var record := Object(map[NameKey := String("hw1"), StatusKey := String("unknown")]);
    var response := Object(map[HomeworksKey := Array([record]), CurrentDateKey := Number(1000)]);
    assert ParseStatus(record) == Err(KeyError(UnknownStatus(String("unknown"))));
    var text := UnknownStatus(String("unknown"));
    assert text == "Ключ " + "unknown" + " отсутствует в словаре HOMEWORK_VERDICTS";
    var message := ErrorPrefix + Describe(KeyError(text));
    assert message == ErrorPrefix + "'" + "Ключ " + "unknown" + " отсутствует в словаре HOMEWORK_VERDICTS" + "'";
    assert Step(s, Answered(response)).sent == [ErrorNotice(message)];
    RunRepeatNotifiesOnce(s, Answered(response));
    assert [Answered(response)][1..] == [];
  }
}
