/** The polling loop of the bot. One cycle fetches the homework statuses,
    validates the answer, reads the status of the most recent homework,
    renders its notification and compares the status with the last one it
    announced. Every failure ends the cycle early and is sorted by the
    `except` chain into "forward the error to the chat" or "swallow it".
    The endless loop is the fold of one cycle over the sequence of fetch
    outcomes, which are inputs here: the HTTP call itself is not modelled. */
module PollLoop {
  import opened Wrappers
  import opened Python
  import opened Homework

  /** What one call to the API produced: the decoded answer, or the
      exception the call raised. */
  type Fetch = Result<Json, Exc>

  /** The loop's own variables: the `from_date` cursor and the last status
      announced (a decoded value, compared with `!=`). */
  datatype State = State(timestamp: int, cache: Json)

  /** The cursor starts at 0 and the cache at the empty string. */
  const Init: State := State(0, JStr(""))

  /** What one cycle leaves behind: the next state, the status notification
      it sent, the exception it forwarded to the chat, and the exception (if
      any) that ended it early, whether forwarded or swallowed. */
  datatype Cycle = Cycle(next: State, notice: Option<string>, alert: Option<Exc>, fault: Option<Exc>)

  // ---------------------------------------------------------------------
  // The except chain
  // ---------------------------------------------------------------------

  /** One `except` clause: a named class, or the final catch-all `Exception`. */
  datatype Clause = Catch(kind: Kind) | CatchAll

  /** The clauses in the order they are tried. The four named ones forward
      the exception to the chat; the catch-all only builds a message that
      is never sent. */
  const ExceptChain: seq<Clause> :=
    [Catch(ConnectionError), Catch(RequestException), Catch(TypeError), Catch(KeyError), CatchAll]

  predicate Matches(c: Clause, e: Exc) {
    c.CatchAll? || c.kind == e.kind
  }

  /** The position of the first clause of `chain` that catches `e`, as
      Python picks it; `None` when the exception would escape the chain. */
  function Handler(chain: seq<Clause>, e: Exc): (r: Option<nat>)
    ensures r.Some? ==> r.value < |chain| && Matches(chain[r.value], e)
    ensures r.Some? ==> forall j :: 0 <= j < r.value ==> !Matches(chain[j], e)
    ensures r.None? <==> forall i :: 0 <= i < |chain| ==> !Matches(chain[i], e)
    decreases |chain|
  {
    if |chain| == 0 then None
    else if Matches(chain[0], e) then Some(0)
    else
      match Handler(chain[1..], e)
      case None => None
      case Some(k) => Some(k + 1)
  }

  /** Which clause of the bot's chain catches each kind of exception: the
      named clause of its own class, or the catch-all for the rest. */
  lemma HandlerOfChain(e: Exc)
    ensures e.kind == ConnectionError ==> Handler(ExceptChain, e) == Some(0)
    ensures e.kind == RequestException ==> Handler(ExceptChain, e) == Some(1)
    ensures e.kind == TypeError ==> Handler(ExceptChain, e) == Some(2)
    ensures e.kind == KeyError ==> Handler(ExceptChain, e) == Some(3)
    ensures e.kind == IndexError || e.kind == OtherError ==> Handler(ExceptChain, e) == Some(4)
  {
  }

  /** The error notification of a cycle that raised `e`: the exception
      itself when a named clause catches it, nothing when only the
      catch-all does. */
  function Alert(e: Exc): (r: Option<Exc>)
    ensures r.Some? <==> e.kind in {ConnectionError, RequestException, TypeError, KeyError}
    ensures r.Some? ==> r.value == e
  {
    HandlerOfChain(e);
    match Handler(ExceptChain, e)
    case Some(k) => if ExceptChain[k].Catch? then Some(e) else None
    case None => None
  }

  // ---------------------------------------------------------------------
  // One cycle
  // ---------------------------------------------------------------------

  /** Everything a cycle does before the comparison, in source order: the
      answer is validated, the status of the first homework is read by
      subscript, and then that same homework is interpreted. Yields the raw
      status and the rendered notification. */
  function Attempt(fetched: Fetch): Result<(Json, string), Exc> {
    var response :- fetched;
    var homework :- CheckResponse(response);
    var homeworks :- Subscript(homework, HomeworksKey);
    var first :- First(homeworks);
    var status :- Subscript(first, StatusKey);
    var message :- ParseStatus(first);
    Success((status, message))
  }

  /** A homework as the cycle sees it when it gets as far as the comparison. */
  datatype Sighting = Sighting(name: Json, status: string)

  /** The reference reading of a fetch outcome: the name and status of the
      first homework of a well-shaped answer, when that homework is a
      record with a name and a known status; nothing otherwise. */
  function Observed(fetched: Fetch): Option<Sighting> {
    if fetched.Success? && WellShaped(fetched.value) then
      var items := fetched.value.fields[HomeworksKey].items;
      if |items| > 0 && Recognised(items[0]) then
        Some(Sighting(items[0].fields[NameKey], items[0].fields[StatusKey].s))
      else None
    else None
  }

  /** `Attempt` gets through exactly when `Observed` sees a homework, and
      then it reads that homework's status and renders its notification. */
  lemma AttemptAgreesWithObserved(fetched: Fetch)
    ensures Attempt(fetched).Success? <==> Observed(fetched).Some?
    ensures Attempt(fetched).Success? ==>
              var st := Observed(fetched).value;
              Attempt(fetched).value == (JStr(st.status), Notification(st.name, Verdicts[st.status]))
  {
  }

  /** One pass of the loop body. A status that differs from the cache is
      announced and becomes the cache; an equal one changes nothing. A cycle
      that fails before the comparison changes nothing either and hands its
      exception to the `except` chain. */
  function Step(s: State, fetched: Fetch): (c: Cycle)
    ensures c.next.timestamp == s.timestamp
    ensures Observed(fetched).None? ==>
              && c.next == s && c.notice.None?
              && c.fault.Some? && c.alert == Alert(c.fault.value)
    ensures Observed(fetched).Some? ==>
              var st := Observed(fetched).value;
              && c.fault.None? && c.alert.None?
              && c.next.cache == JStr(st.status)
              && (c.notice.Some? <==> JStr(st.status) != s.cache)
              && (c.notice.Some? ==> c.notice.value == Notification(st.name, Verdicts[st.status]))
    ensures fetched.Failure? ==> c.fault == Some(fetched.error)
    ensures fetched.Success? && WellShaped(fetched.value) && Observed(fetched).None?
            && |fetched.value.fields[HomeworksKey].items| > 0 ==>
              var first := fetched.value.fields[HomeworksKey].items[0];
              c.fault == Some(if Subscript(first, StatusKey).Failure? then Subscript(first, StatusKey).error
                              else ParseStatus(first).error)
    ensures fetched.Success? && !WellShaped(fetched.value) ==>
              c.fault == Some(CheckResponse(fetched.value).error)
    ensures fetched.Success? && WellShaped(fetched.value) && |fetched.value.fields[HomeworksKey].items| == 0 ==>
              c.fault.Some? && c.fault.value.kind == IndexError
  {
    AttemptAgreesWithObserved(fetched);
    match Attempt(fetched)
    case Failure(e) => Cycle(s, None, Alert(e), Some(e))
    case Success((status, message)) =>
      if status != s.cache then Cycle(State(s.timestamp, status), Some(message), None, None)
      else Cycle(s, None, None, None)
  }

  /** An answer with an empty `homeworks` list ends the cycle with an
      `IndexError` that only the catch-all clause handles: nothing at all
      is sent. */
  lemma EmptyListIsSilent(s: State, fields: map<string, Json>)
    requires HomeworksKey in fields && fields[HomeworksKey] == JList([])
    ensures var c := Step(s, Success(JDict(fields)));
            c.next == s && c.notice.None? && c.alert.None? && c.fault.Some? && c.fault.value.kind == IndexError
  {
  }

  /** A rejected answer is forwarded to the chat with the validator's own exception. */
  lemma ShapeFailureIsForwarded(s: State, response: Json)
    requires CheckResponse(response).Failure?
    ensures var c := Step(s, Success(response));
            c.next == s && c.notice.None? && c.alert == Some(CheckResponse(response).error)
  {
    HandlerOfChain(CheckResponse(response).error);
  }

  /** The cycle reads `status` before the interpreter looks for
      `homework_name`, so a first homework lacking both is reported as a
      missing `status`. */
  lemma StatusIsReadBeforeName(s: State, fields: map<string, Json>, items: seq<Json>)
    requires HomeworksKey in fields && fields[HomeworksKey] == JList(items) && |items| > 0
    requires items[0].JDict? && NameKey !in items[0].fields && StatusKey !in items[0].fields
    ensures var c := Step(s, Success(JDict(fields)));
            c.next == s && c.notice.None? && c.alert == Some(Exc(KeyError, StatusKey))
  {
  }

  /** A first homework that has a `status` but is rejected by the
      interpreter (no name, or a status outside the table) ends the cycle
      with the interpreter's `KeyError` or `TypeError`, which is forwarded
      to the chat. */
  lemma BadRecordIsForwarded(s: State, fields: map<string, Json>, items: seq<Json>)
    requires HomeworksKey in fields && fields[HomeworksKey] == JList(items) && |items| > 0
    requires items[0].JDict? && StatusKey in items[0].fields && !Recognised(items[0])
    ensures var c := Step(s, Success(JDict(fields)));
            && c.next == s && c.notice.None?
            && c.alert == Some(ParseStatus(items[0]).error)
            && (c.alert.value.kind == KeyError || c.alert.value.kind == TypeError)
  {
  }

  /** A first homework with a name and a hashable status outside the
      verdict table reaches the chat as the interpreter's "unknown status"
      `TypeError`. (An unhashable status fails earlier, in the table lookup.) */
  lemma UnknownStatusIsForwarded(s: State, fields: map<string, Json>, items: seq<Json>)
    requires HomeworksKey in fields && fields[HomeworksKey] == JList(items) && |items| > 0
    requires items[0].JDict? && NameKey in items[0].fields && StatusKey in items[0].fields
    requires Hashable(items[0].fields[StatusKey]) && !Recognised(items[0])
    ensures var c := Step(s, Success(JDict(fields)));
            c.next == s && c.notice.None? && c.alert == Some(Exc(TypeError, UnknownStatusText))
  {
  }

  /** Two cycles in a row that see the same status announce it at most
      once: the second one is always silent. */
  lemma RepeatedStatusIsSilent(s: State, f1: Fetch, f2: Fetch)
    requires Observed(f1).Some? && Observed(f2).Some?
    requires Observed(f1).value.status == Observed(f2).value.status
    ensures Step(Step(s, f1).next, f2).notice.None?
  {
  }

  /** A first answer naming a rejected work is announced with the rejection verdict. */
  lemma FirstRejectionIsAnnounced()
    ensures var answer := JDict(map[HomeworksKey := JList([JDict(map[NameKey := JStr("proj1"), StatusKey := JStr("rejected")])])]);
            var c := Step(Init, Success(answer));
            && c.notice == Some(NoticePrefix + "proj1" + NoticeJoint + "Работа проверена: у ревьюера есть замечания.")
            && c.next.cache == JStr("rejected")
  {
  }

  /** A move from `reviewing` to `approved` is announced with the approval verdict. */
  lemma ApprovalAfterReviewIsAnnounced()
    ensures var answer := JDict(map[HomeworksKey := JList([JDict(map[NameKey := JStr("proj1"), StatusKey := JStr("approved")])])]);
            var c := Step(State(0, JStr("reviewing")), Success(answer));
            && c.notice == Some(NoticePrefix + "proj1" + NoticeJoint + "Работа проверена: ревьюеру всё понравилось. Ура!")
            && c.next.cache == JStr("approved")
  {
  }

  // ---------------------------------------------------------------------
  // The loop as a fold
  // ---------------------------------------------------------------------

  /** The state after one cycle per fetch outcome, in order. */
  function Final(s: State, fetches: seq<Fetch>): State
    decreases |fetches|
  {
    if |fetches| == 0 then s
    else Step(Final(s, fetches[..|fetches| - 1]), fetches[|fetches| - 1]).next
  }

  /** What each cycle produced: cycle `i` starts from the state the first `i` cycles left. */
  function Trace(s: State, fetches: seq<Fetch>): seq<Cycle> {
    seq(|fetches|, i requires 0 <= i < |fetches| => Step(Final(s, fetches[..i]), fetches[i]))
  }

  /** The status notifications of a run, in the order they were sent. */
  function Notices(trace: seq<Cycle>): seq<string>
    decreases |trace|
  {
    if |trace| == 0 then []
    else
      var last := trace[|trace| - 1];
      Notices(trace[..|trace| - 1]) + (if last.notice.Some? then [last.notice.value] else [])
  }

  /** The error notifications of a run, in the order they were sent. */
  function Alerts(trace: seq<Cycle>): seq<Exc>
    decreases |trace|
  {
    if |trace| == 0 then []
    else
      var last := trace[|trace| - 1];
      Alerts(trace[..|trace| - 1]) + (if last.alert.Some? then [last.alert.value] else [])
  }

  /** The reference for the cache: the most recent status seen, or the initial value. */
  function LastSeen(initial: Json, fetches: seq<Fetch>): Json
    decreases |fetches|
  {
    if |fetches| == 0 then initial
    else match Observed(fetches[|fetches| - 1])
      case Some(st) => JStr(st.status)
      case None => LastSeen(initial, fetches[..|fetches| - 1])
  }

  /** The positions at which a status is seen that differs from the last
      one seen before it. */
  ghost function ChangePoints(initial: Json, fetches: seq<Fetch>): set<int> {
    set i | 0 <= i < |fetches| && Observed(fetches[i]).Some?
                && JStr(Observed(fetches[i]).value.status) != LastSeen(initial, fetches[..i])
  }

  /** The cursor never moves. */
  lemma {:induction false} FinalKeepsTimestamp(s: State, fetches: seq<Fetch>)
    ensures Final(s, fetches).timestamp == s.timestamp
    decreases |fetches|
  {
    if |fetches| > 0 {
      FinalKeepsTimestamp(s, fetches[..|fetches| - 1]);
    }
  }

  /** The cache after a run is the last status seen, or the initial value
      when no cycle got as far as the comparison. */
  lemma {:induction false} FinalCacheIsLastSeen(s: State, fetches: seq<Fetch>)
    ensures Final(s, fetches).cache == LastSeen(s.cache, fetches)
    decreases |fetches|
  {
    if |fetches| > 0 {
      FinalCacheIsLastSeen(s, fetches[..|fetches| - 1]);
    }
  }

  /** The last status seen is the initial value or one of the three known statuses. */
  lemma {:induction false} LastSeenIsKnown(initial: Json, fetches: seq<Fetch>)
    ensures var c := LastSeen(initial, fetches);
            c == initial || (c.JStr? && c.s in Verdicts)
    decreases |fetches|
  {
    if |fetches| > 0 {
      LastSeenIsKnown(initial, fetches[..|fetches| - 1]);
    }
  }

  /** From startup, the cursor is always 0 and the cache always holds the
      empty string or one of the three known statuses. */
  lemma RunKeepsCursorAndCache(fetches: seq<Fetch>)
    ensures Final(Init, fetches).timestamp == 0
    ensures var c := Final(Init, fetches).cache;
            c == JStr("") || (c.JStr? && c.s in Verdicts)
  {
    FinalKeepsTimestamp(Init, fetches);
    FinalCacheIsLastSeen(Init, fetches);
    LastSeenIsKnown(Init.cache, fetches);
  }

  /** Cycle `i` of a run sends a status notification exactly when position
      `i` is a change point. */
  lemma NoticeExactlyAtChanges(s: State, fetches: seq<Fetch>, i: int)
    requires 0 <= i < |fetches|
    ensures Trace(s, fetches)[i].notice.Some? <==> i in ChangePoints(s.cache, fetches)
  {
    FinalCacheIsLastSeen(s, fetches[..i]);
  }

  lemma TraceAt(s: State, fetches: seq<Fetch>, i: int)
    requires 0 <= i < |fetches|
    ensures |Trace(s, fetches)| == |fetches|
    ensures Trace(s, fetches)[i] == Step(Final(s, fetches[..i]), fetches[i])
  {
  }

  /** Dropping the last fetch drops the last cycle. */
  lemma TracePrefix(s: State, fetches: seq<Fetch>)
    requires |fetches| > 0
    ensures var n := |fetches| - 1;
            Trace(s, fetches)[..n] == Trace(s, fetches[..n])
  {
    var n := |fetches| - 1;
    forall i | 0 <= i < n
      ensures Trace(s, fetches)[i] == Trace(s, fetches[..n])[i]
    {
      TraceAt(s, fetches, i);
      TraceAt(s, fetches[..n], i);
      assert fetches[..n][..i] == fetches[..i];
    }
  }

  /** Dropping the last fetch drops at most the last change point. */
  lemma ChangePointsPrefix(initial: Json, fetches: seq<Fetch>)
    requires |fetches| > 0
    ensures var n := |fetches| - 1;
            ChangePoints(initial, fetches) - {n} == ChangePoints(initial, fetches[..n])
  {
    var n := |fetches| - 1;
    forall i | 0 <= i < n
      ensures fetches[..n][..i] == fetches[..i]
    {
    }
  }

  /** Removing one candidate element from a set changes its size by one exactly when it was there. */
  lemma SizeWithout(whole: set<int>, rest: set<int>, n: int)
    requires whole - {n} == rest
    ensures |whole| == |rest| + (if n in whole then 1 else 0)
  {
    if n in whole {
      assert whole == rest + {n};
    } else {
      assert whole == rest;
    }
  }

  /** The last cycle of a run adds one notification exactly at a change point. */
  lemma NoticesOfLastCycle(s: State, fetches: seq<Fetch>)
    requires |fetches| > 0
    ensures var n := |fetches| - 1;
            |Notices(Trace(s, fetches))| == |Notices(Trace(s, fetches[..n]))|
                                            + (if n in ChangePoints(s.cache, fetches) then 1 else 0)
  {
    var n := |fetches| - 1;
    var t := Trace(s, fetches);
    TracePrefix(s, fetches);
    assert |Notices(t)| == |Notices(t[..n])| + (if t[n].notice.Some? then 1 else 0);
    NoticeExactlyAtChanges(s, fetches, n);
  }

  /** The last position of a run adds one change point exactly when it is one. */
  lemma ChangesOfLastCycle(initial: Json, fetches: seq<Fetch>)
    requires |fetches| > 0
    ensures var n := |fetches| - 1;
            |ChangePoints(initial, fetches)| == |ChangePoints(initial, fetches[..n])|
                                               + (if n in ChangePoints(initial, fetches) then 1 else 0)
  {
    var n := |fetches| - 1;
    ChangePointsPrefix(initial, fetches);
    SizeWithout(ChangePoints(initial, fetches), ChangePoints(initial, fetches[..n]), n);
  }

  /** The number of status notifications a run sends is the number of
      positions where the status seen differs from the one seen last. */
  lemma {:induction false} NoticeCountIsChangeCount(s: State, fetches: seq<Fetch>)
    ensures |Notices(Trace(s, fetches))| == |ChangePoints(s.cache, fetches)|
    decreases |fetches|
  {
    if |fetches| > 0 {
      NoticeCountIsChangeCount(s, fetches[..|fetches| - 1]);
      NoticesOfLastCycle(s, fetches);
      ChangesOfLastCycle(s.cache, fetches);
    }
  }

  /** One more fetch runs one more cycle, from the state the earlier ones
      left, and appends whatever that cycle sends. */
  lemma RunExtends(s: State, fetches: seq<Fetch>, k: int)
    requires 0 <= k < |fetches|
    ensures var c := Step(Final(s, fetches[..k]), fetches[k]);
            && Final(s, fetches[..k + 1]) == c.next
            && Notices(Trace(s, fetches[..k + 1]))
               == Notices(Trace(s, fetches[..k])) + (if c.notice.Some? then [c.notice.value] else [])
            && Alerts(Trace(s, fetches[..k + 1]))
               == Alerts(Trace(s, fetches[..k])) + (if c.alert.Some? then [c.alert.value] else [])
  {
    var ext := fetches[..k + 1];
    assert ext[..k] == fetches[..k] && ext[k] == fetches[k];
    TracePrefix(s, ext);
    TraceAt(s, ext, k);
  }

  // ---------------------------------------------------------------------
  // Startup and the loop
  // ---------------------------------------------------------------------

  /** How a run of the bot goes: it exits at startup, or it runs one cycle per fetch. */
  datatype Launch = Exited(reason: string) | Polled(trace: seq<Cycle>)

  /** Startup followed by the loop. The bot exits before polling when a
      secret is missing (with the corrected token check); otherwise it runs
      the cycles from the initial state. */
  function Start(secrets: Secrets, fetches: seq<Fetch>): (r: Launch)
    ensures r.Exited? <==> secrets.practicumToken.None? || secrets.telegramToken.None? || secrets.chatId.None?
    ensures r.Exited? ==> r.reason == MissingSecretsText
    ensures r.Polled? ==> r.trace == Trace(Init, fetches)
  {
    if !TokensPresent(secrets) then Exited(MissingSecretsText)
    else Polled(Trace(Init, fetches))
  }

  /** The `while True` loop, cut off after the given fetch outcomes. It
      collects every message sent to the chat and ends in the fold's state. */
  method Poll(fetches: seq<Fetch>) returns (last: State, notices: seq<string>, alerts: seq<Exc>)
    ensures last == Final(Init, fetches)
    ensures last.timestamp == 0
    ensures last.cache == LastSeen(JStr(""), fetches)
    ensures notices == Notices(Trace(Init, fetches))
    ensures |notices| == |ChangePoints(JStr(""), fetches)|
    ensures alerts == Alerts(Trace(Init, fetches))
  {
    last := Init;
    notices := [];
    alerts := [];
    for k := 0 to |fetches|
      invariant last == Final(Init, fetches[..k])
      invariant notices == Notices(Trace(Init, fetches[..k]))
      invariant alerts == Alerts(Trace(Init, fetches[..k]))
    {
      var c := Step(last, fetches[k]);
      RunExtends(Init, fetches, k);
      if c.notice.Some? {
        notices := notices + [c.notice.value];
      }
      if c.alert.Some? {
        alerts := alerts + [c.alert.value];
      }
      last := c.next;
    }
    assert fetches[..|fetches|] == fetches;
    RunKeepsCursorAndCache(fetches);
    FinalCacheIsLastSeen(Init, fetches);
    NoticeCountIsChangeCount(Init, fetches);
  }
}
