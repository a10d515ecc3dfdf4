/**
 The decision logic of the homework-status bot (homework.py): the start-up
 token check, the validator of the review API's answer, and the formatter
 that turns a homework record into the notification text.
 */
module Homework {
  import opened Json
  import opened Outcomes

  const Approved := "Работа проверена: ревьюеру всё понравилось. Ура!"
  const Reviewing := "Работа взята на проверку ревьюером."
  const Rejected := "Работа проверена: у ревьюера есть замечания."

  /** The verdict table: the three statuses the review API can report. */
  const HomeworkVerdicts: map<string, string> :=
    map["approved" := Approved, "reviewing" := Reviewing, "rejected" := Rejected]

  const HomeworksKey := "homeworks"
  const CurrentDateKey := "current_date"
  const NameKey := "homework_name"
  const StatusKey := "status"

  const ResponseNotDict := "Response не соответствует типу dictionary"
  const HomeworksMissing := "Отсутствует ключ - homeworks"
  const CurrentDateMissing := "Отсутствует ключ - current_date"
  const HomeworksNotList := "Homeworks не соответствует типу list"
  const NameMissing := "Отсутствует ключ - homework_name"
  const StatusMissing := "Отсутствует ключ - status"

  const MessagePrefix := "Изменился статус проверки работы \""
  const MessageSeparator := "\". "

  /*** Start-up token check ***/

  predicate Present(token: Option<string>) {
    token.Some? && token.value != ""
  }

  /** Python's `all(tokens)`: every token is set and non-empty. */
  predicate AllTruthy(tokens: seq<Option<string>>) {
    forall i :: 0 <= i < |tokens| ==> Present(tokens[i])
  }

  /** `check_tokens`: the three credentials, each possibly unset in the environment. */
  function CheckTokens(practicumToken: Option<string>, telegramToken: Option<string>,
                       chatId: Option<string>): (ok: bool)
    ensures ok <==> practicumToken.Some? && practicumToken.value != ""
                    && telegramToken.Some? && telegramToken.value != ""
                    && chatId.Some? && chatId.value != ""
  {
    var tokens := [practicumToken, telegramToken, chatId];
    assert AllTruthy(tokens) <==> Present(tokens[0]) && Present(tokens[1]) && Present(tokens[2]);
    AllTruthy(tokens)
  }

  /*** Response validator ***/

  /** The answer is an object with both keys, and its homework list is a JSON array. */
  ghost predicate WellFormedResponse(response: Value) {
    && response.Object?
    && HomeworksKey in response.fields
    && CurrentDateKey in response.fields
    && response.fields[HomeworksKey].Array?
  }

  /**
   `check_response`: the shape checks in source order; the first that fails
   decides the error. An empty homework list is "no update" (`None`);
   otherwise the first record, whatever its type, is handed on.
   */
  function CheckResponse(response: Value): (r: Result<Option<Value>>)
    ensures r == Err(TypeError(ResponseNotDict)) <==> !response.Object?
    ensures r == Err(KeyError(HomeworksMissing)) <==>
              response.Object? && HomeworksKey !in response.fields
    ensures r == Err(KeyError(CurrentDateMissing)) <==>
              response.Object? && HomeworksKey in response.fields && CurrentDateKey !in response.fields
    ensures r == Err(TypeError(HomeworksNotList)) <==>
              response.Object? && HomeworksKey in response.fields && CurrentDateKey in response.fields
              && !response.fields[HomeworksKey].Array?
    ensures r.Ok? <==> WellFormedResponse(response)
    ensures r == Ok(None) <==>
              WellFormedResponse(response) && response.fields[HomeworksKey].items == []
    ensures r.Ok? && r.value.Some? ==>
              response.fields[HomeworksKey].items != []
              && r.value.value == response.fields[HomeworksKey].items[0]
  {
    if !response.Object? then Err(TypeError(ResponseNotDict))
    else if HomeworksKey !in response.fields then Err(KeyError(HomeworksMissing))
    else if CurrentDateKey !in response.fields then Err(KeyError(CurrentDateMissing))
    else
      var homeworks := response.fields[HomeworksKey];
      if !homeworks.Array? then Err(TypeError(HomeworksNotList))
      else if homeworks.items == [] then Ok(None)
      else Ok(Some(homeworks.items[0]))
  }

  /** Only the first record is looked at: the rest of the list never changes the outcome. */
  lemma CheckResponseIgnoresTail(response: Value, rest: seq<Value>)
    requires WellFormedResponse(response) && response.fields[HomeworksKey].items != []
    ensures var items := response.fields[HomeworksKey].items;
            var other := Object(response.fields[HomeworksKey := Array([items[0]] + rest)]);
            CheckResponse(other) == CheckResponse(response)
  {
  }

  /** Keys other than the two the validator reads never change its outcome. */
  lemma CheckResponseIgnoresOtherKeys(m: map<string, Value>, m': map<string, Value>)
    requires HomeworksKey in m <==> HomeworksKey in m'
    requires HomeworksKey in m ==> m[HomeworksKey] == m'[HomeworksKey]
    requires CurrentDateKey in m <==> CurrentDateKey in m'
    ensures CheckResponse(Object(m)) == CheckResponse(Object(m'))
  {
  }

  /*** Python operators the formatter applies to a record of unknown type ***/

  /** Python's `needle in haystack` on two strings. */
  predicate IsSubstring(needle: string, haystack: string)
    decreases |haystack|
  {
    needle <= haystack || (haystack != [] && IsSubstring(needle, haystack[1..]))
  }

  /** `needle` occupies the positions `i .. i + |needle|` of `haystack`. */
  ghost predicate OccursAt(needle: string, haystack: string, i: int) {
    0 <= i && i + |needle| <= |haystack| && haystack[i..i + |needle|] == needle
  }

  /**
   The scan in IsSubstring finds a string exactly when it occurs at some
   position: the recursive test agrees with the positional definition.
   */
  lemma {:induction false} IsSubstringIffOccurs(needle: string, haystack: string)
    ensures IsSubstring(needle, haystack) <==> exists i :: OccursAt(needle, haystack, i)
    decreases |haystack|
  {
    if needle <= haystack {
      assert OccursAt(needle, haystack, 0);
    } else if haystack == [] {
      // a non-empty needle fits nowhere in an empty haystack
    } else {
      var tail := haystack[1..];
      IsSubstringIffOccurs(needle, tail);
      if IsSubstring(needle, tail) {
        var j :| OccursAt(needle, tail, j);
        assert haystack[j + 1..j + 1 + |needle|] == tail[j..j + |needle|];
        assert OccursAt(needle, haystack, j + 1);
      }
      if exists i :: OccursAt(needle, haystack, i) {
        var i :| OccursAt(needle, haystack, i);
        assert i != 0;  // position 0 would make needle a prefix
        assert tail[i - 1..i - 1 + |needle|] == haystack[i..i + |needle|];
        assert OccursAt(needle, tail, i - 1);
      }
    }
  }

  /** Python's `key in container`: dict keys, list elements, substrings; a scalar raises. */
  function Contains(container: Value, key: string): (r: Result<bool>)
    ensures r.Ok? <==> container.Object? || container.Array? || container.String?
    ensures container.Object? ==> r == Ok(key in container.fields)
    ensures container.Array? ==> r == Ok(String(key) in container.items)
    ensures container.String? ==> r == Ok(exists i :: OccursAt(key, container.str, i))
    ensures r.Err? ==> r.error.TypeError?
  {
    match container
    case Object(m) => Ok(key in m)
    case Array(a) => Ok(String(key) in a)
    case String(s) =>
      IsSubstringIffOccurs(key, s);
      Ok(IsSubstring(key, s))
    case _ => Err(TypeError("argument of type '" + TypeName(container) + "' is not iterable"))
  }

  /** Python's `container[key]` with a string key. */
  function Subscript(container: Value, key: string): (r: Result<Value>)
    ensures r.Ok? <==> container.Object? && key in container.fields
    ensures r.Ok? ==> r.value == container.fields[key]
  {
    match container
    case Object(m) => if key in m then Ok(m[key]) else Err(KeyError(key))
    case Array(_) => Err(TypeError("list indices must be integers or slices, not str"))
    case String(_) => Err(TypeError("string indices must be integers, not 'str'"))
    case _ => Err(TypeError("'" + TypeName(container) + "' object is not subscriptable"))
  }

  /*** Status formatter ***/

  function UnknownStatus(status: Value): string {
    "Ключ " + Text(status) + " отсутствует в словаре HOMEWORK_VERDICTS"
  }

  /** Numeric statuses the table does not know are told apart by their error texts. */
  lemma UnknownNumericStatusesDiffer(m: int, n: int)
    ensures UnknownStatus(Number(m)) == UnknownStatus(Number(n)) <==> m == n
  {
    var a, b := UnknownStatus(Number(m)), UnknownStatus(Number(n));
    if a == b {
      var k := |"Ключ "|;
      var suffix := " отсутствует в словаре HOMEWORK_VERDICTS";
      assert |DecimalText(m)| == |a| - k - |suffix| == |DecimalText(n)|;
      assert a[k..k + |DecimalText(m)|] == DecimalText(m);
      assert b[k..k + |DecimalText(n)|] == DecimalText(n);
      DecimalTextInjective(m, n);
    }
  }

  /** `HOMEWORK_VERDICTS[status]`, after the `in` test that guards it. */
  function LookupVerdict(status: Value): (r: Result<string>)
    ensures r.Ok? <==> status.String? && status.str in HomeworkVerdicts
    ensures r.Ok? ==> r.value == HomeworkVerdicts[status.str]
    ensures !status.Array? && !status.Object? && r.Err? ==> r == Err(KeyError(UnknownStatus(status)))
  {
    match status
    case Array(_) => Err(TypeError("unhashable type: 'list'"))
    case Object(_) => Err(TypeError("unhashable type: 'dict'"))
    case String(s) =>
      if s in HomeworkVerdicts then Ok(HomeworkVerdicts[s]) else Err(KeyError(UnknownStatus(status)))
    case _ => Err(KeyError(UnknownStatus(status)))
  }

  function StatusMessage(name: string, verdict: string): string {
    MessagePrefix + name + MessageSeparator + verdict
  }

  /** A record the formatter accepts: a dict with a name and a status the verdict table knows. */
  ghost predicate Recognised(homework: Value) {
    && homework.Object?
    && NameKey in homework.fields
    && StatusKey in homework.fields
    && homework.fields[StatusKey].String?
    && homework.fields[StatusKey].str in HomeworkVerdicts
  }

  /**
   `parse_status`: checks for the name, then for the status, then looks the
   status up; on success the message names the homework and quotes the
   verdict for its status.
   */
  function ParseStatus(homework: Value): (r: Result<string>)
    ensures r.Ok? <==> Recognised(homework)
    ensures r.Ok? ==>
              r.value == StatusMessage(Text(homework.fields[NameKey]),
                                       HomeworkVerdicts[homework.fields[StatusKey].str])
    ensures homework.Object? && NameKey !in homework.fields ==> r == Err(KeyError(NameMissing))
    ensures homework.Object? && NameKey in homework.fields && StatusKey !in homework.fields ==>
              r == Err(KeyError(StatusMissing))
    ensures homework.Object? && NameKey in homework.fields && StatusKey in homework.fields
            && !homework.fields[StatusKey].Array? && !homework.fields[StatusKey].Object?
            && !Recognised(homework) ==>
              r == Err(KeyError(UnknownStatus(homework.fields[StatusKey])))
    ensures r.Err? ==> r.error.KeyError? || r.error.TypeError?
  {
    var hasName :- Contains(homework, NameKey);
    if !hasName then Err(KeyError(NameMissing))
    else
      // the first test raised nothing, so neither can the second on the same value
      var hasStatus := Contains(homework, StatusKey).value;
      if !hasStatus then Err(KeyError(StatusMissing))
      else
        var name :- Subscript(homework, NameKey);
        // a dict holding the name also holds the status: the test above found it
        var status := Subscript(homework, StatusKey).value;
        var verdict :- LookupVerdict(status);
        Ok(StatusMessage(Text(name), verdict))
  }

  /** The message depends on the name and the status only; other fields never matter. */
  lemma ParseStatusReadsNameAndStatus(m: map<string, Value>, m': map<string, Value>)
    requires NameKey in m <==> NameKey in m'
    requires NameKey in m ==> m[NameKey] == m'[NameKey]
    requires StatusKey in m <==> StatusKey in m'
    requires StatusKey in m ==> m[StatusKey] == m'[StatusKey]
    ensures ParseStatus(Object(m)) == ParseStatus(Object(m'))
  {
  }

  /** No verdict is a suffix of another one, so a message ends in exactly one verdict. */
  lemma VerdictEndings(s: string, t: string)
    requires s in HomeworkVerdicts && t in HomeworkVerdicts
    ensures var v, w := HomeworkVerdicts[s], HomeworkVerdicts[t];
            |v| >= 2 && |w| >= 2 && (v[|v| - 2..] == w[|w| - 2..] <==> s == t)
  {
    assert Approved[|Approved| - 2..] == "а!";
    assert Reviewing[|Reviewing| - 2..] == "м.";
    assert Rejected[|Rejected| - 2..] == "я.";
  }

  /**
   Two successful messages are equal exactly when they name the same
   homework text and the same status: comparing messages, as the poll loop
   does, is comparing (name, status) pairs.
   */
  lemma {:induction false} StatusMessageInjective(n: string, s: string, n': string, s': string)
    requires s in HomeworkVerdicts && s' in HomeworkVerdicts
    ensures StatusMessage(n, HomeworkVerdicts[s]) == StatusMessage(n', HomeworkVerdicts[s'])
            <==> n == n' && s == s'
  {
    var v, v' := HomeworkVerdicts[s], HomeworkVerdicts[s'];
    var m, m' := StatusMessage(n, v), StatusMessage(n', v');
    if m == m' {
      VerdictEndings(s, s');
      assert m[|m| - 2..] == v[|v| - 2..];
      assert m'[|m'| - 2..] == v'[|v'| - 2..];
      assert s == s';
      var k := |MessagePrefix|;
      assert m[k..k + |n|] == n;
      assert m'[k..k + |n'|] == n';
    }
  }

  /** The formatter, read as a whole: equal messages iff equal rendered name and equal status. */
  lemma SameMessageIffSameRecord(h: Value, h': Value)
    requires Recognised(h) && Recognised(h')
    ensures ParseStatus(h) == ParseStatus(h') <==>
              Text(h.fields[NameKey]) == Text(h'.fields[NameKey])
              && h.fields[StatusKey] == h'.fields[StatusKey]
  {
    StatusMessageInjective(Text(h.fields[NameKey]), h.fields[StatusKey].str,
                           Text(h'.fields[NameKey]), h'.fields[StatusKey].str);
  }
}
