/** The pure parts of the bot: the startup check on its three secrets, the
    shape check on an API answer, and the rendering of one homework record
    into the chat notification, with the fixed verdict table behind it. */
module Homework {
  import opened Wrappers
  import opened Python

  // ---------------------------------------------------------------------
  // Constants
  // ---------------------------------------------------------------------

  const HomeworksKey: string := "homeworks"
  const NameKey: string := "homework_name"
  const StatusKey: string := "status"

  /** The verdict table: the only three statuses the bot recognises. */
  const Verdicts: map<string, string> := map[
    "approved" := "Работа проверена: ревьюеру всё понравилось. Ура!",
    "reviewing" := "Работа взята на проверку ревьюером.",
    "rejected" := "Работа проверена: у ревьюера есть замечания."
  ]

  const NotDictText: string := "Получены данные не в виде словаря"
  const NoHomeworksText: string := "В полученых данных нет ключа homeworks"
  const NotListText: string := "Получены данные не в виде списка"
  const NoNameText: string := "В полученых данных нет ключа homework_name"
  const UnknownStatusText: string := "неизвестный статус"
  const MissingSecretsText: string := "Отсутствуют обязательные переменные"

  const NoticePrefix: string := "Изменился статус проверки работы \""
  const NoticeJoint: string := "\"."

  // ---------------------------------------------------------------------
  // Secrets
  // ---------------------------------------------------------------------

  /** The three values read from the environment; `None` when unset. */
  datatype Secrets = Secrets(practicumToken: Option<string>, telegramToken: Option<string>, chatId: Option<string>)

  function SecretList(s: Secrets): seq<Option<string>> {
    [s.practicumToken, s.telegramToken, s.chatId]
  }

  /** The loop of the token check as written: both branches of its body
      return, so the first element alone decides; an empty list would fall
      out of the loop and give `None`. */
  function FirstSecretDecides(secrets: seq<Option<string>>): Option<bool> {
    if |secrets| == 0 then None
    else if secrets[0].None? then Some(false)
    else Some(true)
  }

  /** The token check as written, read the way startup reads it: `ok` is
      "the result is not `False`", so the bot goes on to poll. */
  function CheckTokens(s: Secrets): (ok: bool)
    ensures ok <==> s.practicumToken.Some?
  {
    FirstSecretDecides(SecretList(s)) != Some(false)
  }

  /** The later two secrets never influence the token check as written. */
  lemma CheckTokensIgnoresLaterSecrets(s: Secrets, t: Secrets)
    requires s.practicumToken == t.practicumToken
    ensures CheckTokens(s) == CheckTokens(t)
  {
  }

  /** A configuration with no chat id passes the token check as written,
      although the bot cannot work without one. */
  lemma CheckTokensAcceptsMissingChatId()
    ensures CheckTokens(Secrets(Some("token"), Some("token"), None))
    ensures !TokensPresent(Secrets(Some("token"), Some("token"), None))
  {
  }

  /** Every secret in the list is set. */
  function AllPresent(secrets: seq<Option<string>>): (ok: bool)
    ensures ok <==> forall i :: 0 <= i < |secrets| ==> secrets[i].Some?
    decreases |secrets|
  {
    |secrets| == 0 || (secrets[0].Some? && AllPresent(secrets[1..]))
  }

  /** The token check as intended: every one of the three secrets is set. */
  function TokensPresent(s: Secrets): (ok: bool)
    ensures ok <==> s.practicumToken.Some? && s.telegramToken.Some? && s.chatId.Some?
  {
    var list := SecretList(s);
    assert list[0] == s.practicumToken && list[1] == s.telegramToken && list[2] == s.chatId;
    AllPresent(list)
  }

  // ---------------------------------------------------------------------
  // Response validation
  // ---------------------------------------------------------------------

  /** The documented answer shape: a dictionary whose `homeworks` entry is a list. */
  predicate WellShaped(response: Json) {
    response.JDict? && HomeworksKey in response.fields && response.fields[HomeworksKey].JList?
  }

  /** Validates an API answer. The checks run in a fixed order, each with
      its own exception: not a dictionary, then no `homeworks` key, then
      `homeworks` not a list. An accepted answer is handed back untouched. */
  function CheckResponse(response: Json): (r: Result<Json, Exc>)
    ensures r.Success? <==> WellShaped(response)
    ensures r.Success? ==> r.value == response
    ensures !response.JDict? ==> r == Failure(Exc(TypeError, NotDictText))
    ensures response.JDict? && HomeworksKey !in response.fields ==>
              r == Failure(Exc(KeyError, NoHomeworksText))
    ensures response.JDict? && HomeworksKey in response.fields && !response.fields[HomeworksKey].JList? ==>
              r == Failure(Exc(TypeError, NotListText))
  {
    if !response.JDict? then Failure(Exc(TypeError, NotDictText))
    else if HomeworksKey !in response.fields then Failure(Exc(KeyError, NoHomeworksText))
    else if !response.fields[HomeworksKey].JList? then Failure(Exc(TypeError, NotListText))
    else Success(response)
  }

  /** The three ways an answer can be rejected are told apart: the two
      `TypeError`s by their text, the missing key by its class. */
  lemma ResponseFailuresDistinct(a: Json, b: Json)
    requires CheckResponse(a).Failure? && CheckResponse(b).Failure?
    requires CheckResponse(a) == CheckResponse(b)
    ensures a.JDict? <==> b.JDict?
    ensures a.JDict? ==> (HomeworksKey in a.fields <==> HomeworksKey in b.fields)
  {
  }

  // ---------------------------------------------------------------------
  // Status interpretation
  // ---------------------------------------------------------------------

  /** `status in HOMEWORK_VERDICTS`: a list or a dictionary cannot be looked
      up in a dictionary and raises `TypeError`; any other value is simply
      absent unless it is one of the three known status strings. */
  function KnownStatus(status: Json): (r: Result<bool, Exc>)
    ensures r.Success? <==> Hashable(status)
    ensures r.Success? ==> (r.value <==> status.JStr? && status.s in Verdicts)
    ensures r.Failure? ==> r.error.kind == TypeError
  {
    if !Hashable(status) then Failure(Exc(TypeError, "unhashable type: '" + TypeName(status) + "'"))
    else Success(status.JStr? && status.s in Verdicts)
  }

  /** The notification text for a work called `name` with verdict text
      `verdict`. There is no space between the closing `".` and the verdict. */
  function Notification(name: Json, verdict: string): string {
    NoticePrefix + Display(name) + NoticeJoint + verdict
  }

  /** A record `ParseStatus` accepts: a dictionary with a name and a known status. */
  predicate Recognised(homework: Json) {
    && homework.JDict?
    && NameKey in homework.fields
    && StatusKey in homework.fields
    && homework.fields[StatusKey].JStr?
    && homework.fields[StatusKey].s in Verdicts
  }

  /** Interprets one homework record: it must contain `homework_name`
      (checked first, with `in`), then `status` (read by subscript), and the
      status must be in the verdict table. */
  function ParseStatus(homework: Json): (r: Result<string, Exc>)
    ensures r.Success? <==> Recognised(homework)
    ensures r.Success? ==>
              r.value == Notification(homework.fields[NameKey], Verdicts[homework.fields[StatusKey].s])
    ensures homework.JDict? && NameKey !in homework.fields ==>
              r == Failure(Exc(KeyError, NoNameText))
    ensures homework.JDict? && NameKey in homework.fields && StatusKey !in homework.fields ==>
              r == Failure(Exc(KeyError, StatusKey))
    ensures homework.JDict? && NameKey in homework.fields && StatusKey in homework.fields
            && !Recognised(homework) ==>
              && r.Failure? && r.error.kind == TypeError
              && (Hashable(homework.fields[StatusKey]) ==> r.error.text == UnknownStatusText)
    ensures !homework.JDict? ==> r.Failure? && (r.error.kind == KeyError || r.error.kind == TypeError)
  {
    var hasName :- In(NameKey, homework);
    if !hasName then Failure(Exc(KeyError, NoNameText))
    else
      var name :- Subscript(homework, NameKey);
      var status :- Subscript(homework, StatusKey);
      var known :- KnownStatus(status);
      if !known then Failure(Exc(TypeError, UnknownStatusText))
      else Success(Notification(name, Verdicts[status.s]))
  }

  /** The outcome of `ParseStatus` depends on nothing but a dictionary
      record's name and status entries: other fields are ignored. */
  lemma ParseStatusReadsOnlyNameAndStatus(a: map<string, Json>, b: map<string, Json>)
    requires (NameKey in a <==> NameKey in b) && (NameKey in a ==> a[NameKey] == b[NameKey])
    requires (StatusKey in a <==> StatusKey in b) && (StatusKey in a ==> a[StatusKey] == b[StatusKey])
    ensures ParseStatus(JDict(a)) == ParseStatus(JDict(b))
  {
  }

  /** The verdict texts end differently: the approval ends in `!`, and the
      other two differ in their next-to-last character. */
  lemma VerdictEndings(k1: string, k2: string)
    requires k1 in Verdicts && k2 in Verdicts && k1 != k2
    ensures var v1, v2 := Verdicts[k1], Verdicts[k2];
            |v1| >= 2 && |v2| >= 2
            && (v1[|v1| - 1] != v2[|v2| - 1] || v1[|v1| - 2] != v2[|v2| - 2])
  {
    var a, rv, rj := Verdicts["approved"], Verdicts["reviewing"], Verdicts["rejected"];
    assert a[|a| - 1] == '!';
    assert rv[|rv| - 1] == '.' && rv[|rv| - 2] == 'м';
    assert rj[|rj| - 1] == '.' && rj[|rj| - 2] == 'я';
    assert Verdicts.Keys == {"approved", "reviewing", "rejected"};
  }

  /** The last two characters of a concatenation are those of its right part. */
  lemma LastTwo(front: string, back: string)
    requires |back| >= 2
    ensures var m := front + back;
            m[|m| - 1] == back[|back| - 1] && m[|m| - 2] == back[|back| - 2]
  {
  }

  /** Between a fixed prefix and a fixed joint-plus-tail, the middle part is determined. */
  lemma MiddleDetermined(front: string, d1: string, d2: string, joint: string, tail: string)
    requires front + d1 + joint + tail == front + d2 + joint + tail
    ensures d1 == d2
  {
    var m := front + d1 + joint + tail;
    assert |d1| == |d2|;
    assert d1 == m[|front|..|front| + |d1|];
    assert d2 == (front + d2 + joint + tail)[|front|..|front| + |d2|];
  }

  /** A notification identifies the verdict and the displayed name: two
      notifications that read the same come from the same status and the
      same rendered name. */
  lemma NotificationInjective(name1: Json, k1: string, name2: Json, k2: string)
    requires k1 in Verdicts && k2 in Verdicts
    requires Notification(name1, Verdicts[k1]) == Notification(name2, Verdicts[k2])
    ensures k1 == k2
    ensures Display(name1) == Display(name2)
  {
    var v1, v2 := Verdicts[k1], Verdicts[k2];
    var d1, d2 := Display(name1), Display(name2);
    if k1 != k2 {
      VerdictEndings(k1, k2);
      LastTwo(NoticePrefix + d1 + NoticeJoint, v1);
      LastTwo(NoticePrefix + d2 + NoticeJoint, v2);
      assert false;
    }
    MiddleDetermined(NoticePrefix, d1, d2, NoticeJoint, v1);
  }
}
