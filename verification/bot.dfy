/** One cycle of the `run` loop of `GaiaBot`: generate a conversation, send it
    with retries, then pause for a second. The loop itself repeats this forever
    and is not modelled beyond one cycle. */
module Bot {
  import opened Wrappers
  import opened Json
  import opened Messages
  import opened Retry

  /** The retry settings read once at start-up (`RETRY_COUNT`, `RETRY_DELAY`,
      `TIMEOUT`), already parsed to integers. The timeout only records the
      configured value: whether a POST timed out is part of its `Outcome`. */
  datatype Settings = Settings(retryCount: int, retryDelay: int, timeout: int)

  /** The values used when the environment does not set them. */
  const Defaults: Settings := Settings(3, 5, 60)

  /** The pause between two cycles, in seconds. */
  const CyclePause: int := 1

  /** The three `random.choice` draws of one `generate_message`. */
  datatype Draws = Draws(userPick: nat, rolePick: nat, replyPick: nat)

  /** The draws are in range for the given word lists. */
  predicate ValidDraws(roles: seq<string>, phrases: seq<string>, d: Draws)
  {
    ValidPick(d.userPick, |phrases|) && ValidPick(d.rolePick, |OtherRoles(roles)|) && ValidPick(d.replyPick, |phrases|)
  }

  /** One pass of `while True` (lines 121-124). A failing `generate_message`
      escapes the loop (only KeyboardInterrupt is caught). Otherwise the cycle
      always ends with the one-second pause, whether the request was answered or
      not, and an answer quotes the phrase drawn for the user message. */
  function Cycle(settings: Settings, roles: seq<string>, phrases: seq<string>, draws: Draws, outcomes: seq<Outcome>)
    : (r: Result<Report, GenerationError>)
    requires ValidDraws(roles, phrases, draws)
    requires settings.retryCount <= |outcomes|
    ensures r.Err? <==> |phrases| == 0 || forall x :: x in roles ==> x == UserRole
    ensures r.Ok? ==> |r.value.trace| > 0 && r.value.trace[|r.value.trace| - 1] == Sleep(CyclePause)
    ensures r.Ok? ==> (r.value.result.Succeeded? <==> exists k :: 0 <= k < settings.retryCount && Answers(outcomes[k]))
    ensures r.Ok? && r.value.result.Succeeded? ==> r.value.result.question == phrases[draws.userPick]
  {
    match GenerateMessage(roles, phrases, draws.userPick, draws.rolePick, draws.replyPick)
    case Err(e) => Err(e)
    case Ok(messages) =>
      var sent := SendRequest(settings.retryCount, settings.retryDelay, messages, outcomes);
      Ok(Report(sent.trace + [Sleep(CyclePause)], sent.result))
  }

  /** What a cycle logs. An answered cycle made the attempts up to the first
      answering reply within the budget, logged one answer, and carries that
      reply's content. An unanswered one made every attempt,
      logged a warning or error for each, and slept after each of them: between
      attempts for `retry_delay`, and after the last for the cycle pause. */
  lemma CycleLogsFirstAnswerOrEveryAttempt(settings: Settings, roles: seq<string>, phrases: seq<string>, draws: Draws, outcomes: seq<Outcome>)
    requires ValidDraws(roles, phrases, draws)
    requires settings.retryCount <= |outcomes|
    ensures var r := Cycle(settings, roles, phrases, draws, outcomes);
      r.Ok? && r.value.result.Succeeded? ==>
        exists k :: && 0 <= k < settings.retryCount && Answers(outcomes[k])
                    && (forall j :: 0 <= j < k ==> !Answers(outcomes[j]))
                    && r.value.result.answer == ReplyContent(outcomes[k].body.value)
                    && Count(r.value.trace, AttemptKind) == k + 1
                    && Count(r.value.trace, AnswerKind) == 1
    ensures var r := Cycle(settings, roles, phrases, draws, outcomes);
      r.Ok? && r.value.result.Exhausted? && settings.retryCount >= 1 ==>
        && Count(r.value.trace, AttemptKind) == settings.retryCount
        && Count(r.value.trace, WarningKind) + Count(r.value.trace, ErrorKind) == settings.retryCount
        && Count(r.value.trace, SleepKind) == settings.retryCount
        && Count(r.value.trace, AnswerKind) == 0
  {
    var r := Cycle(settings, roles, phrases, draws, outcomes);
    if r.Ok? {
      var messages := GenerateMessage(roles, phrases, draws.userPick, draws.rolePick, draws.replyPick).value;
      var n, delay := settings.retryCount, settings.retryDelay;
      var sent := SendRequest(n, delay, messages, outcomes);
      assert r.value == Report(sent.trace + [Sleep(CyclePause)], sent.result);
      if sent.result.Succeeded? {
        var k := FirstUsable(messages, outcomes, 0, n);
        StopsAtFirstAnswer(n, delay, messages, outcomes, k);
        CountCons(Sleep(CyclePause), [], AttemptKind);
        CountCons(Sleep(CyclePause), [], AnswerKind);
        assert [Sleep(CyclePause)] == [Sleep(CyclePause)] + [];
        CountAppend(sent.trace, [Sleep(CyclePause)], AttemptKind);
        CountAppend(sent.trace, [Sleep(CyclePause)], AnswerKind);
      } else if n >= 1 {
        assert forall j :: 0 <= j < n ==> !Usable(messages, outcomes[j]);
        ExhaustsAfterEveryFailure(n, delay, messages, outcomes);
        CountCons(Sleep(CyclePause), [], AttemptKind);
        CountCons(Sleep(CyclePause), [], WarningKind);
        CountCons(Sleep(CyclePause), [], ErrorKind);
        CountCons(Sleep(CyclePause), [], SleepKind);
        CountCons(Sleep(CyclePause), [], AnswerKind);
        assert [Sleep(CyclePause)] == [Sleep(CyclePause)] + [];
        CountAppend(sent.trace, [Sleep(CyclePause)], AttemptKind);
        CountAppend(sent.trace, [Sleep(CyclePause)], WarningKind);
        CountAppend(sent.trace, [Sleep(CyclePause)], ErrorKind);
        CountAppend(sent.trace, [Sleep(CyclePause)], SleepKind);
        CountAppend(sent.trace, [Sleep(CyclePause)], AnswerKind);
      }
    }
  }

  /** With the default settings and every attempt failing, `send_request` makes
      three attempts with two five-second sleeps between them, and gives up. */
  lemma DefaultsMakeThreeAttempts(messages: seq<Message>, outcomes: seq<Outcome>)
    requires |outcomes| >= 3
    requires forall j :: 0 <= j < 3 ==> !Usable(messages, outcomes[j])
    ensures var r := SendRequest(Defaults.retryCount, Defaults.retryDelay, messages, outcomes);
      && r.result == Exhausted
      && Count(r.trace, AttemptKind) == 3
      && Count(r.trace, SleepKind) == 2
      && forall e :: e in r.trace && e.Sleep? ==> e == Sleep(5)
  {
    ExhaustsAfterEveryFailure(3, 5, messages, outcomes);
  }

  /** The roles "user" and "assistant", the phrase "ping", three attempts, no
      delay, and every attempt timing out: three timeout warnings, no answer,
      and the cycle still ends with its pause so the loop goes on. */
  lemma AlwaysTimingOutKeepsCycling()
    ensures Cycle(Settings(3, 0, 60), ["user", "assistant"], ["ping"], Draws(0, 0, 0), [TimedOut, TimedOut, TimedOut])
      == Ok(Report([
           Attempt(1), Warning(1, 3, Timeout), Sleep(0),
           Attempt(2), Warning(2, 3, Timeout), Sleep(0),
           Attempt(3), Warning(3, 3, Timeout),
           Sleep(CyclePause)], Exhausted))
  {
    var roles, phrases := ["user", "assistant"], ["ping"];
    var outcomes := [TimedOut, TimedOut, TimedOut];
    assert OtherRoles(roles) == ["assistant"] by {
      assert roles[1..] == ["assistant"];
      assert roles[1..][1..] == [];
    }
    var messages := [Message("user", "ping"), Message("assistant", "ping")];
    assert GenerateMessage(roles, phrases, 0, 0, 0) == Ok(messages);
    assert RunFrom(3, 0, messages, outcomes, 2).trace == [Attempt(3), Warning(3, 3, Timeout)] + [] + [];
    assert RunFrom(3, 0, messages, outcomes, 1).trace
        == [Attempt(2), Warning(2, 3, Timeout), Sleep(0)] + RunFrom(3, 0, messages, outcomes, 2).trace;
    assert RunFrom(3, 0, messages, outcomes, 0).trace
        == [Attempt(1), Warning(1, 3, Timeout), Sleep(0)] + RunFrom(3, 0, messages, outcomes, 1).trace;
    assert RunFrom(3, 0, messages, outcomes, 0).result == Exhausted;
    var sent := SendRequest(3, 0, messages, outcomes);
    assert sent.trace == [
      Attempt(1), Warning(1, 3, Timeout), Sleep(0),
      Attempt(2), Warning(2, 3, Timeout), Sleep(0),
      Attempt(3), Warning(3, 3, Timeout)];
    assert Cycle(Settings(3, 0, 60), roles, phrases, Draws(0, 0, 0), outcomes)
        == Ok(Report(sent.trace + [Sleep(CyclePause)], Exhausted));
    assert sent.trace + [Sleep(CyclePause)] == [
      Attempt(1), Warning(1, 3, Timeout), Sleep(0),
      Attempt(2), Warning(2, 3, Timeout), Sleep(0),
      Attempt(3), Warning(3, 3, Timeout),
      Sleep(CyclePause)];
  }

  /** A first reply `{"choices":[{"message":{"content":"hi"}}]}` is logged with
      the answer "hi" after a single attempt. */
  lemma WellFormedReplyIsLogged(messages: seq<Message>, rest: seq<Outcome>)
    requires |messages| > 0 && |rest| >= 2
    ensures var body := JObject(map["choices" := JArray([JObject(map["message" :=
              JObject(map["content" := JString("hi")])])])]);
      SendRequest(3, 5, messages, [Responded(200, Some(body))] + rest)
        == Report([Attempt(1), Answer(messages[0].content, JString("hi"))], Succeeded(messages[0].content, JString("hi")))
  {
    WellFormedReplyYieldsContent();
  }
}
